/**
 * The command handlers of bot.py over an in-memory store.
 *
 * `Database` holds the three collections of db.py: the sessions keyed by
 * chat id, the user bindings keyed by username, and the Order rows in
 * collection order. Each handler is a method that takes what it reads from
 * the Telegram update (chat id, username, the text after the command) as
 * parameters, changes the collections as the handler does, and returns the
 * reply it would send.
 */
module Bot {
  import opened Wrappers
  import opened Text
  import opened Db
  import Parsing
  import opened Ledger
  import Aggregation

  /** What a handler answers. */
  datatype Reply =
    | NoActiveSession                 // session_check: 'No active session, please start a new one'
    | SessionAlreadyStarted           // 'A session is already started'
    | SessionStarted                  // 'New session is started'
    | SessionEnded                    // 'Session is ended'
    | InvalidOrder                    // 'Invalid order'
    | NoReply                         // the handler sends nothing
    | Raised                          // a ValueError escapes the handler
    | UserOrderList(orders: seq<Order>)
    | OrderGroups(groups: seq<Aggregation.Group<string, Aggregation.Totals>>)
    | BillReport(bill: Aggregation.Bill)

  /** The loop behind `QuerySet.update(price=...)`: each row of that name in the session gets the price, the others stay. */
  method RepriceRows(rows: seq<Order>, session: ChatId, name: string, price: real) returns (r: seq<Order>)
    ensures r == UpdatePrice(rows, session, name, price)
  {
    r := rows;
    var i := 0;
    while i < |r|
      invariant 0 <= i <= |r| == |rows|
      invariant forall j :: 0 <= j < i ==> r[j] == Reprice(rows[j], session, name, price)
      invariant forall j :: i <= j < |r| ==> r[j] == rows[j]
    {
      if r[i].session == session && r[i].order == name {
        r := r[i := r[i].(price := Some(price))];
      }
      i := i + 1;
    }
  }

  /**
   * The statements behind one add_order fragment: `Order.get`, then
   * `inc__quantity` on the row found or a new row appended. `Ledger.AddToRow`
   * is the function it is proved against; on the ledger's view it adds the
   * quantity under the key.
   */
  method AddRow(rows: seq<Order>, key: Key, quantity: int) returns (r: seq<Order>)
    requires UniqueKeys(rows)
    ensures r == AddToRow(rows, key, quantity)
    ensures UniqueKeys(r) && View(r) == AddedView(View(rows), key, quantity)
  {
    AddToRowView(rows, key, quantity);
    GetUnique(rows, key);
    var found := Get(rows, HasKey(key));
    if found.Found? {
      var j := found.index;
      r := rows[j := rows[j].(quantity := rows[j].quantity + quantity)];
    } else {
      r := rows + [NewOrder(key.session, key.username, key.order, quantity)];
    }
  }

  /**
   * The statements behind one delete_order fragment: `Order.get`, then
   * delete the row found or decrement it. `Ledger.DeleteFromRow` is the
   * function it is proved against; on the ledger's view it is the
   * decrement-or-delete under the key.
   */
  method DeleteRow(rows: seq<Order>, key: Key, n: nat) returns (r: seq<Order>)
    requires UniqueKeys(rows)
    ensures r == DeleteFromRow(rows, key, n)
    ensures UniqueKeys(r) && View(r) == DeletedView(View(rows), key, n)
  {
    DeleteFromRowView(rows, key, n);
    GetUnique(rows, key);
    var found := Get(rows, HasKey(key));
    r := rows;
    if found.Found? {
      var j := found.index;
      if n >= rows[j].quantity {
        r := rows[..j] + rows[j + 1..];
      } else {
        r := rows[j := rows[j].(quantity := rows[j].quantity - n)];
      }
    }
  }

  class Database {
    var sessions: map<ChatId, Session>
    var userSessions: map<string, UserSession>
    var orders: seq<Order>

    /** The uniqueness and reference rules of db.py, the non-negative charges, and the ledger invariant the handlers keep. */
    ghost predicate Valid()
      reads this
    {
      && SessionsKeyed(sessions)
      && ChargesNonNegative(sessions)
      && BindingsKeyed(userSessions)
      && BindingsResolve(sessions, userSessions)
      && OrdersResolve(sessions, orders)
      && Ledger.Invariant(orders)
    }

    constructor()
      ensures Valid()
      ensures sessions == map[] && userSessions == map[] && orders == []
    {
      sessions, userSessions, orders := map[], map[], [];
    }

    /** session_check: the chat's Session, looked up by its chat id, or None when there is none. */
    method SessionCheck(chatId: ChatId) returns (session: Option<Session>)
      requires Valid()
      ensures session.Some? <==> chatId in sessions
      ensures session.Some? ==> session.value == sessions[chatId] && session.value.chatId == chatId
    {
      if chatId in sessions {
        session := Some(sessions[chatId]);
      } else {
        session := None;
      }
    }

    /** start_session: refuses a chat that already has a session, otherwise stores a fresh one. */
    method StartSession(chatId: ChatId, username: string) returns (reply: Reply)
      requires Valid()
      modifies this
      ensures Valid()
      ensures old(chatId in sessions) ==> reply == SessionAlreadyStarted && sessions == old(sessions)
      ensures old(chatId !in sessions) ==> reply == SessionStarted && sessions == old(sessions)[chatId := NewSession(chatId, username)]
      ensures userSessions == old(userSessions) && orders == old(orders)
    {
      var existing := SessionCheck(chatId);
      if existing.Some? {
        reply := SessionAlreadyStarted;
        return;
      }
      sessions := sessions[chatId := NewSession(chatId, username)];
      reply := SessionStarted;
    }

    /** end_session: deletes the session, and with it its orders and bindings. */
    method EndSession(chatId: ChatId) returns (reply: Reply)
      requires Valid()
      modifies this
      ensures Valid()
      ensures old(chatId !in sessions) ==>
        reply == NoActiveSession && sessions == old(sessions) && userSessions == old(userSessions) && orders == old(orders)
      ensures old(chatId in sessions) ==>
        && reply == SessionEnded
        && sessions == old(sessions) - {chatId}
        && userSessions == CascadeBindings(old(userSessions), chatId)
        && orders == CascadeOrders(old(orders), chatId)
        && View(orders) == CascadedView(old(View(orders)), chatId)
    {
      var session := SessionCheck(chatId);
      if session.None? {
        reply := NoActiveSession;
        return;
      }
      CascadeKeepsReferences(sessions, userSessions, orders, chatId);
      CascadeUnique(orders, chatId);
      CascadeView(orders, chatId);
      CascadedViewOk(View(orders), chatId);
      sessions := sessions - {chatId};
      userSessions := CascadeBindings(userSessions, chatId);
      orders := CascadeOrders(orders, chatId);
      reply := SessionEnded;
    }

    /** `Order.objects(session=session, order=name).update(price=price)`: every matching row, in place. */
    method UpdatePrices(session: ChatId, name: string, price: real)
      requires Valid() && price >= 0.0
      modifies this
      ensures Valid()
      ensures orders == UpdatePrice(old(orders), session, name, price)
      ensures sessions == old(sessions) && userSessions == old(userSessions)
    {
      UpdatePriceInvariant(orders, session, name, price);
      var rows := RepriceRows(orders, session, name, price);
      orders := rows;
    }

    /** set_price: `name=value` pairs separated by commas. */
    method SetPrice(chatId: ChatId, text: string) returns (reply: Reply)
      requires Valid()
      modifies this
      ensures Valid()
      ensures sessions == old(sessions) && userSessions == old(userSessions)
      ensures chatId !in sessions ==> reply == NoActiveSession && orders == old(orders)
      ensures chatId in sessions ==>
        && orders == SetPrices(old(orders), chatId, Split(text, ',')).0
        && reply == (if SetPrices(old(orders), chatId, Split(text, ',')).1 == MalformedPair then Raised else NoReply)
    {
      var session := SessionCheck(chatId);
      if session.None? {
        reply := NoActiveSession;
        return;
      }
      var pairs := Split(text, ',');
      var i := 0;
      while i < |pairs|
        invariant 0 <= i <= |pairs|
        invariant Valid() && sessions == old(sessions) && userSessions == old(userSessions)
        invariant SetPrices(orders, chatId, pairs[i..]) == SetPrices(old(orders), chatId, pairs)
      {
        SuffixStep(pairs, i);
        var parts := Split(pairs[i], '=');
        if |parts| != 2 {
          reply := Raised;
          return;
        }
        var name, value := Strip(parts[0]), Strip(parts[1]);
        var price := AbsNumeral(value);
        if price.Some? {
          UpdatePrices(chatId, name, price.value);
        }
        i := i + 1;
      }
      reply := NoReply;
    }

    /** set_service: stores |value| as the session's service charge when the text is numeric. */
    method SetService(chatId: ChatId, text: string) returns (reply: Reply)
      requires Valid()
      modifies this
      ensures Valid()
      ensures userSessions == old(userSessions) && orders == old(orders)
      ensures chatId !in old(sessions) ==> reply == NoActiveSession && sessions == old(sessions)
      ensures chatId in old(sessions) ==> reply == NoReply
      ensures chatId in old(sessions) && AbsNumeral(Strip(text)).Some? ==>
        sessions == old(sessions)[chatId := old(sessions)[chatId].(service := AbsNumeral(Strip(text)).value)]
      ensures AbsNumeral(Strip(text)).None? ==> sessions == old(sessions)
    {
      var session := SessionCheck(chatId);
      if session.None? {
        reply := NoActiveSession;
        return;
      }
      var service := AbsNumeral(Strip(text));
      if service.Some? {
        sessions := sessions[chatId := session.value.(service := service.value)];
      }
      reply := NoReply;
    }

    /** set_tax: stores |value| as the session's tax when the text is numeric. */
    method SetTax(chatId: ChatId, text: string) returns (reply: Reply)
      requires Valid()
      modifies this
      ensures Valid()
      ensures userSessions == old(userSessions) && orders == old(orders)
      ensures chatId !in old(sessions) ==> reply == NoActiveSession && sessions == old(sessions)
      ensures chatId in old(sessions) ==> reply == NoReply
      ensures chatId in old(sessions) && AbsNumeral(Strip(text)).Some? ==>
        sessions == old(sessions)[chatId := old(sessions)[chatId].(tax := AbsNumeral(Strip(text)).value)]
      ensures AbsNumeral(Strip(text)).None? ==> sessions == old(sessions)
    {
      var session := SessionCheck(chatId);
      if session.None? {
        reply := NoActiveSession;
        return;
      }
      var tax := AbsNumeral(Strip(text));
      if tax.Some? {
        sessions := sessions[chatId := session.value.(tax := tax.value)];
      }
      reply := NoReply;
    }

    /** my_orders: the sender's rows in this session, in collection order, each once. */
    method MyOrders(chatId: ChatId, username: string) returns (reply: Reply)
      requires Valid()
      ensures chatId !in sessions ==> reply == NoActiveSession
      ensures chatId in sessions ==>
        && reply.UserOrderList?
        && (forall o :: o in reply.orders <==> o in orders && o.session == chatId && o.username == username)
        && var ix := Matching(orders, Aggregation.IsUserOrder(chatId, username));
           |reply.orders| == |ix| && forall m :: 0 <= m < |ix| ==> reply.orders[m] == orders[ix[m]]
    {
      var session := SessionCheck(chatId);
      if session.None? {
        reply := NoActiveSession;
        return;
      }
      Aggregation.UserOrdersInOrder(orders, chatId, username);
      reply := UserOrderList(Aggregation.UserOrders(orders, chatId, username));
    }

    /** all_orders: the session's rows grouped by order name. */
    method AllOrders(chatId: ChatId) returns (reply: Reply)
      requires Valid()
      ensures chatId !in sessions ==> reply == NoActiveSession
      ensures chatId in sessions ==> reply == OrderGroups(Aggregation.AllOrders(orders, chatId))
    {
      var session := SessionCheck(chatId);
      if session.None? {
        reply := NoActiveSession;
        return;
      }
      reply := OrderGroups(Aggregation.AllOrders(orders, chatId));
    }

    /** bill: each user's net and total, and the unpriced orders. */
    method Bill(chatId: ChatId) returns (reply: Reply)
      requires Valid()
      ensures chatId !in sessions ==> reply == NoActiveSession
      ensures chatId in sessions ==> reply == BillReport(Aggregation.MakeBill(sessions[chatId], orders))
      ensures chatId in sessions ==>
        Aggregation.Extras(reply.bill.lines) <= sessions[chatId].service + sessions[chatId].tax
    {
      var session := SessionCheck(chatId);
      if session.None? {
        reply := NoActiveSession;
        return;
      }
      reply := BillReport(Aggregation.MakeBill(session.value, orders));
      Aggregation.ChargesSplit(session.value, orders);
    }

    /** One valid fragment of add_order (bot.py:229-243): increment the user's row for the order, or insert one with no price. */
    method AddOne(key: Key, quantity: nat)
      requires Valid() && key.session in sessions && key.order != "" && quantity > 0
      modifies this
      ensures Valid()
      ensures sessions == old(sessions) && userSessions == old(userSessions)
      ensures orders == AddToRow(old(orders), key, quantity)
    {
      AddToRowKeeps(sessions, orders, key, quantity);
      var rows := AddRow(orders, key, quantity);
      orders := rows;
    }

    /** add_order: the payload's `+`-separated fragments, left to right. */
    method AddOrder(chatId: ChatId, username: string, payload: string) returns (reply: Reply)
      requires Valid()
      modifies this
      ensures Valid()
      ensures sessions == old(sessions) && userSessions == old(userSessions)
      ensures chatId !in sessions ==> reply == NoActiveSession && orders == old(orders)
      ensures chatId in sessions ==>
        && orders == AddFragments(old(orders), chatId, username, Split(payload, '+')).0
        && reply == (if AddFragments(old(orders), chatId, username, Split(payload, '+')).1 == AddOutcome.InvalidOrder then Reply.InvalidOrder else NoReply)
    {
      var session := SessionCheck(chatId);
      if session.None? {
        reply := NoActiveSession;
        return;
      }
      var fragments := Split(payload, '+');
      var i := 0;
      while i < |fragments|
        invariant 0 <= i <= |fragments|
        invariant Valid() && sessions == old(sessions) && userSessions == old(userSessions)
        invariant AddFragments(orders, chatId, username, fragments[i..]) == AddFragments(old(orders), chatId, username, fragments)
      {
        SuffixStep(fragments, i);
        var quantity, name := Parsing.ExtractOrderDetails(Strip(fragments[i]));
        assert (quantity, name) == FragmentDetails(fragments[i..][0]);
        if name == "" {
          assert AddFragments(orders, chatId, username, fragments[i..]) == (orders, AddOutcome.InvalidOrder);
          reply := Reply.InvalidOrder;
          return;
        }
        AddFragmentsStep(orders, chatId, username, fragments[i..]);
        AddOne(Key(chatId, username, name), quantity);
        i := i + 1;
      }
      assert AddFragments(orders, chatId, username, fragments[i..]) == (orders, Added);
      reply := NoReply;
    }

    /** One fragment of delete_order (bot.py:262-271): remove the row, lower its quantity, or do nothing when it is absent. */
    method DeleteOne(key: Key, n: nat)
      requires Valid()
      modifies this
      ensures Valid()
      ensures sessions == old(sessions) && userSessions == old(userSessions)
      ensures orders == DeleteFromRow(old(orders), key, n)
    {
      DeleteFromRowKeeps(sessions, orders, key, n);
      var rows := DeleteRow(orders, key, n);
      orders := rows;
    }

    /** delete_order: the payload's `+`-separated fragments, left to right. */
    method DeleteOrder(chatId: ChatId, username: string, payload: string) returns (reply: Reply)
      requires Valid()
      modifies this
      ensures Valid()
      ensures sessions == old(sessions) && userSessions == old(userSessions)
      ensures chatId !in sessions ==> reply == NoActiveSession && orders == old(orders)
      ensures chatId in sessions ==> reply == NoReply && orders == DeleteFragments(old(orders), chatId, username, Split(payload, '+'))
    {
      var session := SessionCheck(chatId);
      if session.None? {
        reply := NoActiveSession;
        return;
      }
      var fragments := Split(payload, '+');
      var i := 0;
      while i < |fragments|
        invariant 0 <= i <= |fragments|
        invariant Valid() && sessions == old(sessions) && userSessions == old(userSessions)
        invariant DeleteFragments(orders, chatId, username, fragments[i..]) == DeleteFragments(old(orders), chatId, username, fragments)
      {
        SuffixStep(fragments, i);
        var quantity, name := Parsing.ExtractOrderDetails(Strip(fragments[i]));
        DeleteOne(Key(chatId, username, name), quantity);
        i := i + 1;
      }
      reply := NoReply;
    }
  }

  // ---------------------------------------------------------------------
  // A worked example: two users, one price, one bill
  // ---------------------------------------------------------------------

  /** The fragment "2 coke" is two of "coke". */
  lemma FragmentTwoCoke()
    ensures FragmentDetails("2 coke") == (2, "coke")
  {
    assert Strip("2 coke") == "2 coke" by {
      StripTrimmed("2 coke");
    }
    Parsing.ExtractedLeadingQuantity();
  }

  /** The fragment "coke" is one "coke". */
  lemma FragmentCoke()
    ensures FragmentDetails("coke") == (1, "coke")
  {
    assert Strip("coke") == "coke" by {
      StripTrimmed("coke");
    }
    Parsing.ExtractedNoQuantity();
  }

  /** With no row for the key yet, the fragment appends a new unpriced row. */
  lemma AddToRowNew(rows: seq<Order>, key: Key, quantity: int)
    requires UniqueKeys(rows) && forall i :: 0 <= i < |rows| ==> KeyOf(rows[i]) != key
    ensures AddToRow(rows, key, quantity) == rows + [Order(key.session, key.username, key.order, quantity, None)]
  {
    assert Get(rows, HasKey(key)) == NotFound;
  }

  /** A single valid fragment whose key has no row yet: add_order appends one new unpriced row. */
  lemma AddOneNewFragment(rows: seq<Order>, session: ChatId, username: string, fragment: string, quantity: nat, order: string)
    requires UniqueKeys(rows) && FragmentDetails(fragment) == (quantity, order) && order != ""
    requires forall i :: 0 <= i < |rows| ==> KeyOf(rows[i]) != Key(session, username, order)
    ensures AddFragments(rows, session, username, [fragment]).0 == rows + [Order(session, username, order, quantity, None)]
  {
    AddFragmentsStep(rows, session, username, [fragment]);
    assert [fragment][1..] == [];
    AddToRowNew(rows, Key(session, username, order), quantity);
  }

  /** The rows after `alice`'s `/add 2 coke` in a fresh chat: one row of 2 coke, unpriced. */
  lemma AliceAddsTwoCoke(session: ChatId, alice: string)
    ensures AddFragments([], session, alice, ["2 coke"]).0 == [Order(session, alice, "coke", 2, None)]
  {
    assert FragmentDetails("2 coke") == (2, "coke") by {
      FragmentTwoCoke();
    }
    AddOneNewFragment([], session, alice, "2 coke", 2, "coke");
  }

  /** `bob`'s `/add coke` appends his own row of one coke after alice's. */
  lemma BobAppendsCoke(session: ChatId, alice: string, bob: string)
    requires alice != bob
    ensures AddFragments([Order(session, alice, "coke", 2, None)], session, bob, ["coke"]).0 ==
      [Order(session, alice, "coke", 2, None)] + [Order(session, bob, "coke", 1, None)]
  {
    FragmentCoke();
    SingleRowOtherKey(Order(session, alice, "coke", 2, None), Key(session, bob, "coke"));
    AddOneNewFragment([Order(session, alice, "coke", 2, None)], session, bob, "coke", 1, "coke");
  }

  /** A single row has unique keys, and no row for any key other than its own. */
  lemma SingleRowOtherKey(o: Order, key: Key)
    requires KeyOf(o) != key
    ensures UniqueKeys([o]) && forall i :: 0 <= i < |[o]| ==> KeyOf([o][i]) != key
  {
  }

  /** After bob's `/add coke` the chat holds alice's row and then bob's. */
  lemma BobAddsCoke(session: ChatId, alice: string, bob: string)
    requires alice != bob
    ensures AddFragments([Order(session, alice, "coke", 2, None)], session, bob, ["coke"]).0 ==
      [Order(session, alice, "coke", 2, None), Order(session, bob, "coke", 1, None)]
  {
    BobAppendsCoke(session, alice, bob);
    AppendOne(Order(session, alice, "coke", 2, None), Order(session, bob, "coke", 1, None));
  }

  /** A one-element sequence extended by one element is the two-element sequence. */
  lemma AppendOne<T>(a: T, b: T)
    ensures [a] + [b] == [a, b]
  {
  }

  /** The pair "coke=1.5" names "coke" and reads as the price 1.5. */
  lemma CokePricePair()
    ensures Split("coke=1.5", '=') == ["coke", "1.5"]
    ensures Strip("coke") == "coke" && AbsNumeral(Strip("1.5")) == Some(1.5)
  {
    assert "coke=1.5" == Join(["coke", "1.5"], '=');
    SplitJoin(["coke", "1.5"], '=');
    StripTrimmed("coke");
    StripTrimmed("1.5");
    ParseDecimalOneAndHalf();
  }

  /** `/set coke=1.5` prices both coke rows of the session, alice's and bob's. */
  lemma SetCokePrice(session: ChatId, alice: string, bob: string)
    ensures SetPrices([Order(session, alice, "coke", 2, None), Order(session, bob, "coke", 1, None)], session, ["coke=1.5"]).0 ==
      [Order(session, alice, "coke", 2, Some(1.5)), Order(session, bob, "coke", 1, Some(1.5))]
  {
    SetCokeIsUpdate([Order(session, alice, "coke", 2, None), Order(session, bob, "coke", 1, None)], session);
    RepriceBothCoke(session, alice, bob);
  }

  /** On any collection, `/set coke=1.5` is the one bulk update of the session's "coke" rows to 1.5. */
  lemma SetCokeIsUpdate(rows: seq<Order>, session: ChatId)
    ensures SetPrices(rows, session, ["coke=1.5"]).0 == UpdatePrice(rows, session, "coke", 1.5)
  {
    CokePricePair();
    assert ["coke=1.5"][1..] == [];
  }

  /** The bulk update for "coke" in the session prices both rows. */
  lemma RepriceBothCoke(session: ChatId, alice: string, bob: string)
    ensures UpdatePrice([Order(session, alice, "coke", 2, None), Order(session, bob, "coke", 1, None)], session, "coke", 1.5) ==
      [Order(session, alice, "coke", 2, Some(1.5)), Order(session, bob, "coke", 1, Some(1.5))]
  {
    var r := UpdatePrice([Order(session, alice, "coke", 2, None), Order(session, bob, "coke", 1, None)], session, "coke", 1.5);
    assert |r| == 2;
    assert r[0] == Order(session, alice, "coke", 2, Some(1.5));
    assert r[1] == Order(session, bob, "coke", 1, Some(1.5));
  }

  /** The bill of the example: alice's net is 2 × 1.5, bob's 1 × 1.5, and with no service or tax the totals equal the nets. */
  lemma BillOfExample(session: ChatId, alice: string, bob: string)
    requires alice != bob
    ensures Aggregation.MakeBill(NewSession(session, alice),
      [Order(session, alice, "coke", 2, Some(1.5)), Order(session, bob, "coke", 1, Some(1.5))]).lines ==
      [Aggregation.BillLine(alice, 3.0, 3.0), Aggregation.BillLine(bob, 1.5, 1.5)]
  {
    var rows := [Order(session, alice, "coke", 2, Some(1.5)), Order(session, bob, "coke", 1, Some(1.5))];
    var groups := Aggregation.UserGroups(rows, session);
    ExampleGroups(session, alice, bob);
    UnchargedShare(NewSession(session, alice), rows);
    var lines := Aggregation.BillLines(groups, 0.0);
    assert |lines| == 2;
    assert lines[0] == Aggregation.BillLine(alice, 3.0, 3.0);
    assert lines[1] == Aggregation.BillLine(bob, 1.5, 1.5);
  }

  /** The `$group` stage of the example: alice's 2 × 1.5 and bob's 1 × 1.5, in that order. */
  lemma ExampleGroups(session: ChatId, alice: string, bob: string)
    requires alice != bob
    ensures var rows := [Order(session, alice, "coke", 2, Some(1.5)), Order(session, bob, "coke", 1, Some(1.5))];
      var groups := Aggregation.UserGroups(rows, session);
      |groups| == 2 && groups[0] == Aggregation.Group(alice, 3.0) && groups[1] == Aggregation.Group(bob, 1.5)
  {
    var a, b := Order(session, alice, "coke", 2, Some(1.5)), Order(session, bob, "coke", 1, Some(1.5));
    var rows := [a, b];
    assert rows[..1] == [a] && [a][..0] == [];
    assert Aggregation.Select([a], Aggregation.SessionOf, session) == [a];
    assert Aggregation.Select(rows, Aggregation.SessionOf, session) == rows;
    var first := Aggregation.GroupBy([a], Aggregation.UsernameOf, Aggregation.RowNet, Aggregation.AddNet);
    assert Aggregation.RowNet(a) == 3.0;
    assert Aggregation.GroupBy([a][..0], Aggregation.UsernameOf, Aggregation.RowNet, Aggregation.AddNet) == [];
    assert Aggregation.FindGroup<string, real>([], alice) == None;
    assert first == [] + [Aggregation.Group(alice, 3.0)];
    assert Aggregation.FindGroup(first, bob) == None;
    assert Aggregation.RowNet(b) == 1.5;
  }

  /** A fresh session charges no service and no tax, so every share is 0. */
  lemma UnchargedShare(session: Session, rows: seq<Order>)
    requires session.service == 0.0 && session.tax == 0.0
    ensures Aggregation.Share(session, rows) == 0.0
  {
    Aggregation.NormalizedChargeSplits(0.0, |Aggregation.Usernames(rows)|);
  }

  /**
   * The whole exchange in one chat: alice adds "2 coke", bob adds "coke",
   * someone sets "coke=1.5", and the bill shows alice a net of 3.0 and bob
   * a net of 1.5.
   */
  lemma TwoUsersOneBill(session: ChatId, alice: string, bob: string)
    requires alice != bob
    ensures var first := AddFragments([], session, alice, ["2 coke"]).0;
      var both := AddFragments(first, session, bob, ["coke"]).0;
      var priced := SetPrices(both, session, ["coke=1.5"]).0;
      Aggregation.MakeBill(NewSession(session, alice), priced).lines ==
        [Aggregation.BillLine(alice, 3.0, 3.0), Aggregation.BillLine(bob, 1.5, 1.5)]
  {
    AliceAddsTwoCoke(session, alice);
    BobAddsCoke(session, alice, bob);
    SetCokePrice(session, alice, bob);
    BillOfExample(session, alice, bob);
  }
}
