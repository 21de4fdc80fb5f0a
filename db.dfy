/**
 * The three document shapes of db.py, their defaults, the lookup helper
 * `DBModel.get`, and what deleting a Session does to the documents that
 * reference it.
 *
 * A Session is identified by its chat id: the field is unique and required,
 * so the store keeps sessions in a map keyed by it, and the `session`
 * reference of an Order or a UserSession is that chat id.
 */
module Db {
  import opened Wrappers

  type ChatId = string

  /** db.py:15-23. `orders_message_id` and `values_message_id` are optional and never set by the handlers. */
  datatype Session = Session(
    chatId: ChatId,
    createdBy: string,
    service: real,
    tax: real,
    ordersMessageId: Option<int>,
    valuesMessageId: Option<int>,
    isOpen: bool)

  /** db.py:26-29: binds one user to one session. */
  datatype UserSession = UserSession(username: string, session: ChatId)

  /** db.py:32-39, without `message_id`, which the handlers never set. */
  datatype Order = Order(
    session: ChatId,
    username: string,
    order: string,
    quantity: int,
    price: Option<real>)

  /** `Session(chat_id=..., created_by=...)`: the defaults of db.py:18-22 fill the other fields. */
  function NewSession(chatId: ChatId, createdBy: string): (s: Session)
    ensures s.chatId == chatId && s.createdBy == createdBy
    ensures s.service == 0.0 && s.tax == 0.0 && s.isOpen
    ensures s.ordersMessageId.None? && s.valuesMessageId.None?
  {
    Session(chatId, createdBy, 0.0, 0.0, None, None, true)
  }

  /** `Order(session=..., username=..., order=..., quantity=...)`: the price defaults to None, the quantity to 1. */
  function NewOrder(session: ChatId, username: string, order: string, quantity: int := 1): (o: Order)
    ensures o.session == session && o.username == username && o.order == order
    ensures o.quantity == quantity && o.price.None?
  {
    Order(session, username, order, quantity, None)
  }

  // ---------------------------------------------------------------------
  // DBModel.get
  // ---------------------------------------------------------------------

  /**
   * The outcome of `cls.objects.get(**filter)`: the one matching document
   * (here its position in the collection), DoesNotExist (which `get` turns
   * into None), or MultipleObjectsReturned (which `get` lets propagate).
   */
  datatype Lookup = NotFound | Found(index: nat) | MultipleFound

  /** Positions of the documents that match, in collection order. */
  function Matching<T>(docs: seq<T>, matches: T -> bool): (ix: seq<nat>)
    ensures forall k :: 0 <= k < |ix| ==> ix[k] < |docs| && matches(docs[ix[k]])
    ensures forall i :: 0 <= i < |docs| && matches(docs[i]) ==> i in ix
    ensures forall k, l :: 0 <= k < l < |ix| ==> ix[k] < ix[l]
  {
    if docs == [] then []
    else
      var init := Matching(docs[..|docs| - 1], matches);
      if matches(docs[|docs| - 1]) then init + [|docs| - 1] else init
  }

  /** `DBModel.get`: None when nothing matches, the match when exactly one does, an error otherwise. */
  function Get<T>(docs: seq<T>, matches: T -> bool): (r: Lookup)
    ensures r == NotFound <==> forall i :: 0 <= i < |docs| ==> !matches(docs[i])
    ensures r.Found? ==> r.index < |docs| && matches(docs[r.index])
    ensures r.Found? ==> forall j :: 0 <= j < |docs| && j != r.index ==> !matches(docs[j])
    ensures r == MultipleFound <==>
      exists i, j :: 0 <= i < j < |docs| && matches(docs[i]) && matches(docs[j])
  {
    var ix := Matching(docs, matches);
    if |ix| == 0 then NotFound
    else if |ix| == 1 then Found(ix[0])
    else
      assert ix[0] < ix[1] && matches(docs[ix[0]]) && matches(docs[ix[1]]);
      MultipleFound
  }

  // ---------------------------------------------------------------------
  // Uniqueness and references
  // ---------------------------------------------------------------------

  /** `chat_id` is unique: a session is stored under its own chat id, so there is at most one per chat. */
  ghost predicate SessionsKeyed(sessions: map<ChatId, Session>) {
    forall c :: c in sessions ==> sessions[c].chatId == c
  }

  /** `username` is unique: a binding is stored under its own username, so each user has at most one. */
  ghost predicate BindingsKeyed(bindings: map<string, UserSession>) {
    forall u :: u in bindings ==> bindings[u].username == u
  }

  /** Service and tax are stored as absolute values, and start at 0. */
  ghost predicate ChargesNonNegative(sessions: map<ChatId, Session>) {
    forall c :: c in sessions ==> sessions[c].service >= 0.0 && sessions[c].tax >= 0.0
  }

  /** Every UserSession refers to a stored Session (the reference is required). */
  ghost predicate BindingsResolve(sessions: map<ChatId, Session>, bindings: map<string, UserSession>) {
    forall u :: u in bindings ==> bindings[u].session in sessions
  }

  /** Every Order refers to a stored Session (the reference is required). */
  ghost predicate OrdersResolve(sessions: map<ChatId, Session>, orders: seq<Order>) {
    forall i :: 0 <= i < |orders| ==> orders[i].session in sessions
  }

  /** The Orders that survive deleting session `chatId` (reverse_delete_rule=2, CASCADE). */
  function CascadeOrders(orders: seq<Order>, chatId: ChatId): (r: seq<Order>)
    ensures forall i :: 0 <= i < |r| ==> r[i].session != chatId
    ensures forall o :: o in r <==> o in orders && o.session != chatId
  {
    if orders == [] then []
    else
      var init := CascadeOrders(orders[..|orders| - 1], chatId);
      var last := orders[|orders| - 1];
      assert orders == orders[..|orders| - 1] + [last];
      if last.session == chatId then init else init + [last]
  }

  /** The UserSessions that survive deleting session `chatId` (reverse_delete_rule=2, CASCADE). */
  function CascadeBindings(bindings: map<string, UserSession>, chatId: ChatId): (r: map<string, UserSession>)
    ensures forall u :: u in r <==> u in bindings && bindings[u].session != chatId
    ensures forall u :: u in r ==> r[u] == bindings[u]
  {
    map u | u in bindings && bindings[u].session != chatId :: bindings[u]
  }

  /** Deleting a Session with its cascades leaves no reference dangling, and keeps every other document. */
  lemma CascadeKeepsReferences(sessions: map<ChatId, Session>, bindings: map<string, UserSession>, orders: seq<Order>, chatId: ChatId)
    requires BindingsResolve(sessions, bindings) && OrdersResolve(sessions, orders)
    ensures BindingsResolve(sessions - {chatId}, CascadeBindings(bindings, chatId))
    ensures OrdersResolve(sessions - {chatId}, CascadeOrders(orders, chatId))
    ensures forall o :: o in orders && o.session != chatId ==> o in CascadeOrders(orders, chatId)
  {
    var orders' := CascadeOrders(orders, chatId);
    forall i | 0 <= i < |orders'| ensures orders'[i].session in sessions - {chatId} {
      assert orders'[i] in orders;
    }
  }
}
