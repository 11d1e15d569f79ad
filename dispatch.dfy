/**
 * The event routing of the webhook handler: for every messaging event of
 * every entry of a "page" payload, decide which replies to send, and send
 * them in order until one raises.
 */
module Dispatch {
  import opened Common
  import Menu

  /** A message event's message; `text` is None for a message without text (an attachment). */
  datatype Message = Message(text: Option<string>)

  datatype Postback = Postback(payload: string, title: string)

  /**
   * One messaging event. `message` and `postback` are None when the key is
   * absent or its value is empty (Python treats both as false).
   */
  datatype MessagingEvent = MessagingEvent(sender: string, message: Option<Message>, postback: Option<Postback>)

  /** An entry of the payload; `messaging` is None when the key is absent (a "standby" entry, say). */
  datatype Entry = Entry(messaging: Option<seq<MessagingEvent>>)

  /**
   * The JSON body of a webhook call: `objectType` is the "object" key ("" when
   * absent), `entries` the "entry" key (None when absent).
   */
  datatype Payload = Payload(objectType: string, entries: Option<seq<Entry>>)

  /** An outbound send: a text reply, or the menu of a catalog node. */
  datatype Action = Echo(recipient: string, text: string) | ShowMenu(recipient: string, node: string)

  /**
   * The sends completed so far, in order, and whether the handler raised
   * (a lookup of a missing key, or a send that failed); the sends completed
   * before that point stay made.
   */
  datatype Outcome = Outcome(actions: seq<Action>, crashed: bool)

  /** The postback titles that open the menu of the postback's node. */
  const CategoryTitles: seq<string> := ["Особые", "Сытные", "Острые"]

  /** Running `b` after `a`: nothing of `b` happens once `a` has raised. */
  function Then(a: Outcome, b: Outcome): Outcome
  {
    if a.crashed then a else Outcome(a.actions + b.actions, b.crashed)
  }

  /**
   * The sends one event asks for: a message is echoed and answered with the
   * menu of the root node; a postback with a category title opens the menu
   * of its payload node; anything else is ignored. None when reading the
   * event raises: a message without text has no "text" key.
   */
  function Route(e: MessagingEvent, root: string): (r: Option<seq<Action>>)
    ensures r.None? <==> e.message.Some? && e.message.value.text.None?
    ensures r.Some? ==> |r.value| <= 2
    ensures r.Some? ==> forall a :: a in r.value ==> a.recipient == e.sender
    ensures r.Some? ==>
      ((exists a :: a in r.value && a.ShowMenu?)
       <==> e.message.Some? || (e.postback.Some? && e.postback.value.title in CategoryTitles))
  {
    match e.message
    case Some(m) =>
      (match m.text
       case Some(t) => Some([Echo(e.sender, t), ShowMenu(e.sender, root)])
       case None => None)
    case None =>
      match e.postback
      case Some(pb) => if pb.title in CategoryTitles then Some([ShowMenu(e.sender, pb.payload)]) else Some([])
      case None => Some([])
  }

  /**
   * Perform the sends in order; `delivered(a)` says whether sending `a`
   * succeeds (for a menu: fetching the catalog, resolving every image and
   * posting). The first failed send raises and ends the call.
   */
  function Deliver(sends: seq<Action>, delivered: Action -> bool): (r: Outcome)
    ensures |r.actions| <= |sends| && r.actions == sends[..|r.actions|]
    ensures forall a :: a in r.actions ==> delivered(a)
    ensures r.crashed <==> exists a :: a in sends && !delivered(a)
    ensures !r.crashed ==> r.actions == sends
    ensures r.crashed ==> !delivered(sends[|r.actions|])
    decreases |sends|
  {
    if sends == [] then Outcome([], false)
    else if !delivered(sends[0]) then Outcome([], true)
    else
      var rest := Deliver(sends[1..], delivered);
      assert forall a :: a in sends ==> a == sends[0] || a in sends[1..];
      Outcome([sends[0]] + rest.actions, rest.crashed)
  }

  /** One event: route it, then perform its sends. */
  function HandleEvent(e: MessagingEvent, root: string, delivered: Action -> bool): Outcome
  {
    match Route(e, root)
    case None => Outcome([], true)
    case Some(sends) => Deliver(sends, delivered)
  }

  /** The events handled in order until the first one that raises. */
  function HandleEvents(events: seq<MessagingEvent>, root: string, delivered: Action -> bool): (r: Outcome)
    ensures |r.actions| <= 2 * |events|
    ensures forall a :: a in r.actions ==> delivered(a)
    decreases |events|
  {
    if events == [] then Outcome([], false)
    else Then(HandleEvents(events[..|events| - 1], root, delivered), HandleEvent(events[|events| - 1], root, delivered))
  }

  /** One entry: reading a missing "messaging" key raises. */
  function HandleEntry(en: Entry, root: string, delivered: Action -> bool): Outcome
  {
    match en.messaging
    case None => Outcome([], true)
    case Some(events) => HandleEvents(events, root, delivered)
  }

  /** The entries handled in order until the first one that raises. */
  function HandleEntries(entries: seq<Entry>, root: string, delivered: Action -> bool): Outcome
    decreases |entries|
  {
    if entries == [] then Outcome([], false)
    else Then(HandleEntries(entries[..|entries| - 1], root, delivered), HandleEntry(entries[|entries| - 1], root, delivered))
  }

  /** What one webhook call sends: nothing unless the payload's object is "page". */
  function Handled(data: Payload, root: string, delivered: Action -> bool): Outcome
  {
    if data.objectType != "page" then Outcome([], false)
    else match data.entries
      case None => Outcome([], true)
      case Some(entries) => HandleEntries(entries, root, delivered)
  }

  lemma ThenAssociative(a: Outcome, b: Outcome, c: Outcome)
    ensures Then(Then(a, b), c) == Then(a, Then(b, c))
  {
  }

  /** Handling a sequence of events is handling the first part, then, unless it raised, the second. */
  lemma {:induction false} HandleEventsAppend(a: seq<MessagingEvent>, b: seq<MessagingEvent>, root: string,
                                              delivered: Action -> bool)
    ensures HandleEvents(a + b, root, delivered) == Then(HandleEvents(a, root, delivered), HandleEvents(b, root, delivered))
    decreases |b|
  {
    if b == [] {
      assert a + b == a;
    } else {
      var b' := b[..|b| - 1];
      HandleEventsAppend(a, b', root, delivered);
      assert (a + b)[..|a + b| - 1] == a + b';
      assert (a + b)[|a + b| - 1] == b[|b| - 1];
      ThenAssociative(HandleEvents(a, root, delivered), HandleEvents(b', root, delivered),
                      HandleEvent(b[|b| - 1], root, delivered));
    }
  }

  /** Handling a sequence of entries is handling the first part, then, unless it raised, the second. */
  lemma {:induction false} HandleEntriesAppend(e1: seq<Entry>, e2: seq<Entry>, root: string, delivered: Action -> bool)
    ensures HandleEntries(e1 + e2, root, delivered) == Then(HandleEntries(e1, root, delivered), HandleEntries(e2, root, delivered))
    decreases |e2|
  {
    if e2 == [] {
      assert e1 + e2 == e1;
    } else {
      var e2' := e2[..|e2| - 1];
      HandleEntriesAppend(e1, e2', root, delivered);
      assert (e1 + e2)[..|e1 + e2| - 1] == e1 + e2';
      assert (e1 + e2)[|e1 + e2| - 1] == e2[|e2| - 1];
      ThenAssociative(HandleEntries(e1, root, delivered), HandleEntries(e2', root, delivered),
                      HandleEntry(e2[|e2| - 1], root, delivered));
    }
  }

  /**
   * Entries are handled in order: a page payload with entries e1 + e2 sends
   * what e1 sends, then, unless e1 raised, what e2 sends.
   */
  lemma EntriesInOrder(e1: seq<Entry>, e2: seq<Entry>, root: string, delivered: Action -> bool)
    ensures Handled(Payload("page", Some(e1 + e2)), root, delivered)
         == Then(Handled(Payload("page", Some(e1)), root, delivered), Handled(Payload("page", Some(e2)), root, delivered))
  {
    HandleEntriesAppend(e1, e2, root, delivered);
  }

  /** Once an event raises, no later event is handled. */
  lemma CrashIsFinal(done: seq<MessagingEvent>, rest: seq<MessagingEvent>, root: string, delivered: Action -> bool)
    requires HandleEvents(done, root, delivered).crashed
    ensures HandleEvents(done + rest, root, delivered) == HandleEvents(done, root, delivered)
  {
    HandleEventsAppend(done, rest, root, delivered);
  }

  /** An entry without "messaging" raises: the entries after it are not handled. */
  lemma EntryWithoutMessagingStops(before: seq<Entry>, after: seq<Entry>, root: string, delivered: Action -> bool)
    ensures HandleEntries(before + [Entry(None)] + after, root, delivered)
         == Then(HandleEntries(before, root, delivered), Outcome([], true))
  {
    HandleEntriesAppend(before + [Entry(None)], after, root, delivered);
    assert (before + [Entry(None)])[..|before|] == before;
  }

  /** A payload whose object is not "page" sends nothing. */
  lemma NotAPageIgnored(data: Payload, root: string, delivered: Action -> bool)
    requires data.objectType != "page"
    ensures Handled(data, root, delivered).actions == [] && !Handled(data, root, delivered).crashed
  {
  }

  /**
   * A text message is echoed back, immediately followed by the root menu;
   * a failed echo raises before the menu, a failed menu raises after the echo.
   */
  lemma TextMessageEchoThenMenu(before: seq<MessagingEvent>, sender: string, text: string,
                                postback: Option<Postback>, root: string, delivered: Action -> bool)
    ensures var e := MessagingEvent(sender, Some(Message(Some(text))), postback);
            var echo := Echo(sender, text);
            var menu := ShowMenu(sender, root);
            (HandleEvents(before + [e], root, delivered)
             == Then(HandleEvents(before, root, delivered),
                     if !delivered(echo) then Outcome([], true)
                     else if !delivered(menu) then Outcome([echo], true)
                     else Outcome([echo, menu], false)))
  {
    var e := MessagingEvent(sender, Some(Message(Some(text))), postback);
    assert (before + [e])[..|before|] == before;
    var sends := [Echo(sender, text), ShowMenu(sender, root)];
    assert sends[1..] == [ShowMenu(sender, root)];
  }

  /** A postback opens the menu of its payload node exactly when its title is a category label. */
  lemma PostbackRouting(before: seq<MessagingEvent>, sender: string, payload: string, title: string, root: string,
                        delivered: Action -> bool)
    ensures var e := MessagingEvent(sender, None, Some(Postback(payload, title)));
            var menu := ShowMenu(sender, payload);
            (HandleEvents(before + [e], root, delivered)
             == Then(HandleEvents(before, root, delivered),
                     if title !in ["Особые", "Сытные", "Острые"] then Outcome([], false)
                     else if delivered(menu) then Outcome([menu], false)
                     else Outcome([], true)))
  {
    var e := MessagingEvent(sender, None, Some(Postback(payload, title)));
    assert (before + [e])[..|before|] == before;
  }

  /** Every shortcut button of the menu's trailer card asks for the menu of its own node. */
  lemma TrailerButtonsRouteBack(sender: string, root: string)
    ensures forall b :: b in Menu.Trailer.buttons ==>
      Route(MessagingEvent(sender, None, Some(Postback(b.payload, b.title))), root)
        == Some([ShowMenu(sender, b.payload)])
  {
  }

  /**
   * The header buttons (cart, promotions, order) and the "add to cart"
   * buttons of product cards ask for no send.
   */
  lemma OtherButtonsIgnored(sender: string, productId: string, root: string)
    ensures forall b :: b in Menu.Header.buttons ==>
      Route(MessagingEvent(sender, None, Some(Postback(b.payload, b.title))), root) == Some([])
    ensures Route(MessagingEvent(sender, None, Some(Postback(productId, Menu.AddToCart))), root) == Some([])
  {
  }

  lemma HandleEventsSnoc(done: seq<MessagingEvent>, e: MessagingEvent, root: string, delivered: Action -> bool)
    ensures HandleEvents(done + [e], root, delivered)
         == Then(HandleEvents(done, root, delivered), HandleEvent(e, root, delivered))
  {
    assert (done + [e])[..|done|] == done;
  }

  lemma HandleEntriesSnoc(done: seq<Entry>, en: Entry, root: string, delivered: Action -> bool)
    ensures HandleEntries(done + [en], root, delivered)
         == Then(HandleEntries(done, root, delivered), HandleEntry(en, root, delivered))
  {
    assert (done + [en])[..|done|] == done;
  }

  /** When the handled prefix raised, the whole list gives the same outcome. */
  lemma EntriesCrashIsFinal(entries: seq<Entry>, i: int, root: string, delivered: Action -> bool)
    requires 0 <= i <= |entries|
    requires HandleEntries(entries[..i], root, delivered).crashed
    ensures HandleEntries(entries, root, delivered) == HandleEntries(entries[..i], root, delivered)
  {
    HandleEntriesAppend(entries[..i], entries[i..], root, delivered);
    assert entries[..i] + entries[i..] == entries;
  }

  /** What one event does, written out branch by branch as the loop body performs it. */
  lemma HandleEventCases(e: MessagingEvent, root: string, delivered: Action -> bool)
    ensures HandleEvent(e, root, delivered)
         == if e.message.Some? then
              if e.message.value.text.None? then Outcome([], true)
              else
                var echo := Echo(e.sender, e.message.value.text.value);
                var menu := ShowMenu(e.sender, root);
                if !delivered(echo) then Outcome([], true)
                else if !delivered(menu) then Outcome([echo], true)
                else Outcome([echo, menu], false)
            else if e.postback.Some? && e.postback.value.title in CategoryTitles then
              var menu := ShowMenu(e.sender, e.postback.value.payload);
              if delivered(menu) then Outcome([menu], false) else Outcome([], true)
            else Outcome([], false)
  {
    if e.message.Some? && e.message.value.text.Some? {
      var sends := [Echo(e.sender, e.message.value.text.value), ShowMenu(e.sender, root)];
      assert sends[1..] == [ShowMenu(e.sender, root)];
    }
  }

  /**
   * The body of the inner loop for one event: echo the text and send the
   * root menu, or send the menu of a category postback's node.
   */
  method SendReplies(e: MessagingEvent, root: string, delivered: Action -> bool) returns (step: Outcome)
    ensures step == HandleEvent(e, root, delivered)
  {
    HandleEventCases(e, root, delivered);
    if e.message.Some? {
      if e.message.value.text.None? {
        step := Outcome([], true);
      } else {
        var echo := Echo(e.sender, e.message.value.text.value);
        var menu := ShowMenu(e.sender, root);
        if !delivered(echo) {
          step := Outcome([], true);
        } else if !delivered(menu) {
          step := Outcome([echo], true);
        } else {
          step := Outcome([echo, menu], false);
        }
      }
    } else if e.postback.Some? && e.postback.value.title in CategoryTitles {
      var menu := ShowMenu(e.sender, e.postback.value.payload);
      step := if delivered(menu) then Outcome([menu], false) else Outcome([], true);
    } else {
      step := Outcome([], false);
    }
  }

  /**
   * The inner loop of the webhook for one entry: each messaging event in
   * order, stopping at the first that raises.
   */
  method SendEntryReplies(events: seq<MessagingEvent>, root: string, delivered: Action -> bool) returns (out: Outcome)
    ensures out == HandleEvents(events, root, delivered)
  {
    var actions: seq<Action> := [];
    var j := 0;
    assert events[..0] == [];
    while j < |events|
      invariant 0 <= j <= |events|
      invariant HandleEvents(events[..j], root, delivered) == Outcome(actions, false)
    {
      var e := events[j];
      assert events[..j + 1] == events[..j] + [e];
      HandleEventsSnoc(events[..j], e, root, delivered);
      var step := SendReplies(e, root, delivered);
      actions := actions + step.actions;
      if step.crashed {
        CrashIsFinal(events[..j + 1], events[j + 1..], root, delivered);
        assert events[..j + 1] + events[j + 1..] == events;
        return Outcome(actions, true);
      }
      j := j + 1;
    }
    assert events[..j] == events;
    out := Outcome(actions, false);
  }

  /**
   * The webhook's loops: for each entry, for each messaging event, perform
   * the sends the event asks for; stop at the first lookup or send that
   * raises.
   */
  method DispatchEvents(data: Payload, root: string, delivered: Action -> bool) returns (out: Outcome)
    ensures out == Handled(data, root, delivered)
  {
    if data.objectType != "page" {
      return Outcome([], false);
    }
    if data.entries.None? {
      return Outcome([], true);
    }
    var entries := data.entries.value;
    var actions: seq<Action> := [];
    var i := 0;
    assert entries[..0] == [];
    while i < |entries|
      invariant 0 <= i <= |entries|
      invariant HandleEntries(entries[..i], root, delivered) == Outcome(actions, false)
    {
      assert entries[..i + 1] == entries[..i] + [entries[i]];
      HandleEntriesSnoc(entries[..i], entries[i], root, delivered);
      if entries[i].messaging.None? {
        EntriesCrashIsFinal(entries, i + 1, root, delivered);
        return Outcome(actions, true);
      }
      var step := SendEntryReplies(entries[i].messaging.value, root, delivered);
      actions := actions + step.actions;
      if step.crashed {
        EntriesCrashIsFinal(entries, i + 1, root, delivered);
        return Outcome(actions, true);
      }
      i := i + 1;
    }
    assert entries[..i] == entries;
    out := Outcome(actions, false);
  }
}
