/**
 * The order ledger: the Order rows that `add_order`, `delete_order` and
 * `set_price` (bot.py) change, one row per (session, username, order name).
 *
 * The rows are kept as a sequence in collection order, which the
 * aggregations depend on. `View` forgets that order and gives the ledger
 * as a map from a row's key to its quantity and price; the contracts of the
 * three operations are stated on it.
 */
module Ledger {
  import opened Wrappers
  import opened Text
  import opened Db
  import Parsing

  /** What `Order.get(session=..., username=..., order=...)` filters on. */
  datatype Key = Key(session: ChatId, username: string, order: string)

  datatype Line = Line(quantity: int, price: Option<real>)

  function KeyOf(o: Order): Key {
    Key(o.session, o.username, o.order)
  }

  function LineOf(o: Order): Line {
    Line(o.quantity, o.price)
  }

  /** The filter `session=..., username=..., order=...` as a predicate on documents. */
  function HasKey(key: Key): Order -> bool {
    o => KeyOf(o) == key
  }

  /** No two rows share a key, which is what makes `Order.get` in add_order and delete_order return at most one row. */
  ghost predicate UniqueKeys(rows: seq<Order>) {
    forall i, j :: 0 <= i < j < |rows| ==> KeyOf(rows[i]) != KeyOf(rows[j])
  }

  /** The ledger as a map from key to line. */
  function View(rows: seq<Order>): map<Key, Line> {
    if rows == [] then map[]
    else View(rows[..|rows| - 1])[KeyOf(rows[|rows| - 1]) := LineOf(rows[|rows| - 1])]
  }

  /** What the handlers keep true of every row: a positive quantity, a non-empty name, a non-negative price if any. */
  ghost predicate LineOk(k: Key, l: Line) {
    l.quantity > 0 && k.order != "" && (l.price.Some? ==> l.price.value >= 0.0)
  }

  ghost predicate ViewOk(v: map<Key, Line>) {
    forall k :: k in v ==> LineOk(k, v[k])
  }

  ghost predicate Invariant(rows: seq<Order>) {
    UniqueKeys(rows) && ViewOk(View(rows))
  }

  // ---------------------------------------------------------------------
  // The three updates, stated on the view
  // ---------------------------------------------------------------------

  /** add: the line under `key` grows by `quantity`, or appears with that quantity and no price. */
  function AddedView(v: map<Key, Line>, key: Key, quantity: int): map<Key, Line> {
    if key in v then v[key := Line(v[key].quantity + quantity, v[key].price)]
    else v[key := Line(quantity, None)]
  }

  /** delete: the line under `key` disappears when `n` reaches its quantity, else shrinks by `n`. */
  function DeletedView(v: map<Key, Line>, key: Key, n: nat): map<Key, Line> {
    if key !in v then v
    else if n >= v[key].quantity then v - {key}
    else v[key := Line(v[key].quantity - n, v[key].price)]
  }

  /** set_price: every line of that name in the session gets the price. */
  function RepricedView(v: map<Key, Line>, session: ChatId, order: string, price: real): map<Key, Line> {
    map k | k in v :: RepricedLine(k, v[k], session, order, price)
  }

  function RepricedLine(k: Key, l: Line, session: ChatId, order: string, price: real): Line {
    if k.session == session && k.order == order then Line(l.quantity, Some(price)) else l
  }

  lemma RepricedViewUpdate(v: map<Key, Line>, k: Key, l: Line, session: ChatId, order: string, price: real)
    ensures RepricedView(v[k := l], session, order, price) == RepricedView(v, session, order, price)[k := RepricedLine(k, l, session, order, price)]
  {
  }

  lemma CascadedViewUpdate(v: map<Key, Line>, k: Key, l: Line, chatId: ChatId)
    ensures CascadedView(v[k := l], chatId) == if k.session == chatId then CascadedView(v, chatId) else CascadedView(v, chatId)[k := l]
  {
  }

  /** end_session: the session's lines go. */
  function CascadedView(v: map<Key, Line>, chatId: ChatId): map<Key, Line> {
    map k | k in v && k.session != chatId :: v[k]
  }

  /** Adding a positive quantity under a non-empty name keeps every line well-formed. */
  lemma AddedViewOk(v: map<Key, Line>, key: Key, quantity: int)
    requires ViewOk(v) && quantity > 0 && key.order != ""
    ensures ViewOk(AddedView(v, key, quantity))
  {
  }

  /** Deleting never leaves a line at zero or below. */
  lemma DeletedViewOk(v: map<Key, Line>, key: Key, n: nat)
    requires ViewOk(v)
    ensures ViewOk(DeletedView(v, key, n))
    ensures DeletedView(v, key, n).Keys <= v.Keys
    ensures forall k :: k in DeletedView(v, key, n) ==> DeletedView(v, key, n)[k].quantity <= v[k].quantity
  {
  }

  /** Dropping a session's lines keeps the others well-formed. */
  lemma CascadedViewOk(v: map<Key, Line>, chatId: ChatId)
    requires ViewOk(v)
    ensures ViewOk(CascadedView(v, chatId))
    ensures CascadedView(v, chatId).Keys <= v.Keys
  {
  }

  /** Delete undoes add: adding `n` of an item and then deleting `n` of it gives back the ledger it started from. */
  lemma AddThenDelete(v: map<Key, Line>, key: Key, n: nat)
    requires ViewOk(v)
    ensures DeletedView(AddedView(v, key, n), key, n) == v
  {
    if key in v {
      assert AddedView(v, key, n)[key].quantity > n;
      assert v[key := Line(v[key].quantity, v[key].price)] == v;
    } else {
      assert v[key := Line(n, None)] - {key} == v;
    }
  }

  /** Two adds of a new item leave one line holding both quantities, with no price. */
  lemma AddedTwice(v: map<Key, Line>, key: Key, q1: int, q2: int)
    requires key !in v
    ensures key in AddedView(v, key, q1)
    ensures AddedView(AddedView(v, key, q1), key, q2) == v[key := Line(q1 + q2, None)]
  {
  }

  /** A non-negative price keeps every line well-formed, and no line appears or disappears. */
  lemma RepricedViewOk(v: map<Key, Line>, session: ChatId, order: string, price: real)
    requires ViewOk(v) && price >= 0.0
    ensures ViewOk(RepricedView(v, session, order, price))
    ensures RepricedView(v, session, order, price).Keys == v.Keys
  {
  }

  // ---------------------------------------------------------------------
  // The view of a sequence of rows
  // ---------------------------------------------------------------------

  /** The keys of the view are exactly the keys of the rows. */
  lemma {:induction false} ViewDomain(rows: seq<Order>)
    ensures forall k :: k in View(rows) <==> exists i :: 0 <= i < |rows| && KeyOf(rows[i]) == k
  {
    if rows != [] {
      var init := rows[..|rows| - 1];
      ViewDomain(init);
      assert View(rows) == View(init)[KeyOf(rows[|rows| - 1]) := LineOf(rows[|rows| - 1])];
      forall k | k in View(rows) ensures exists i :: 0 <= i < |rows| && KeyOf(rows[i]) == k {
        if k != KeyOf(rows[|rows| - 1]) {
          assert k in View(init);
          var i :| 0 <= i < |init| && KeyOf(init[i]) == k;
          assert KeyOf(rows[i]) == k;
        }
      }
      forall k | exists i :: 0 <= i < |rows| && KeyOf(rows[i]) == k ensures k in View(rows) {
        var i :| 0 <= i < |rows| && KeyOf(rows[i]) == k;
        if i < |init| {
          assert KeyOf(init[i]) == k;
        }
      }
    }
  }

  /** With unique keys, each row is what the view holds under its key. */
  lemma {:induction false} ViewAt(rows: seq<Order>, i: nat)
    requires UniqueKeys(rows) && i < |rows|
    ensures KeyOf(rows[i]) in View(rows) && View(rows)[KeyOf(rows[i])] == LineOf(rows[i])
  {
    var init := rows[..|rows| - 1];
    if i < |init| {
      ViewAt(init, i);
      assert init[i] == rows[i];
    }
  }

  /** With unique keys, the ledger has as many rows as the view has keys. */
  lemma {:induction false} ViewSize(rows: seq<Order>)
    requires UniqueKeys(rows)
    ensures |View(rows)| == |rows|
  {
    if rows != [] {
      var init := rows[..|rows| - 1];
      var last := rows[|rows| - 1];
      ViewSize(init);
      ViewDomain(init);
      assert KeyOf(last) !in View(init);
    }
  }

  /** An appended row adds its key to the view. */
  lemma ViewAppend(rows: seq<Order>, o: Order)
    ensures View(rows + [o]) == View(rows)[KeyOf(o) := LineOf(o)]
  {
    assert (rows + [o])[..|rows|] == rows;
  }

  /** A row under a key the ledger lacks keeps the keys unique. */
  lemma AppendFresh(rows: seq<Order>, o: Order)
    requires UniqueKeys(rows) && KeyOf(o) !in View(rows)
    ensures UniqueKeys(rows + [o])
    ensures View(rows + [o]) == View(rows)[KeyOf(o) := LineOf(o)]
  {
    ViewAppend(rows, o);
    ViewDomain(rows);
    forall i, j | 0 <= i < j < |rows + [o]| ensures KeyOf((rows + [o])[i]) != KeyOf((rows + [o])[j]) {
      if j == |rows| {
        assert (rows + [o])[i] == rows[i];
      }
    }
  }

  /** Rewriting a row under the same key keeps the keys unique. */
  lemma ReplaceUnique(rows: seq<Order>, i: nat, o: Order)
    requires UniqueKeys(rows) && i < |rows| && KeyOf(o) == KeyOf(rows[i])
    ensures UniqueKeys(rows[i := o])
  {
    var r := rows[i := o];
    assert forall j :: 0 <= j < |r| ==> KeyOf(r[j]) == KeyOf(rows[j]);
  }

  lemma MapUpdateTwice<K, V>(m: map<K, V>, k: K, v: V, w: V)
    ensures m[k := v][k := w] == m[k := w]
  {
  }

  lemma MapUpdateSwap<K, V>(m: map<K, V>, k: K, v: V, k': K, v': V)
    requires k != k'
    ensures m[k := v][k' := v'] == m[k' := v'][k := v]
  {
  }

  /** Rewriting a row in place, under the same key, rewrites its line. */
  lemma {:induction false} ViewReplace(rows: seq<Order>, i: nat, o: Order)
    requires UniqueKeys(rows) && i < |rows| && KeyOf(o) == KeyOf(rows[i])
    ensures UniqueKeys(rows[i := o])
    ensures View(rows[i := o]) == View(rows)[KeyOf(o) := LineOf(o)]
  {
    ReplaceUnique(rows, i, o);
    var init := rows[..|rows| - 1];
    var last := rows[|rows| - 1];
    assert rows == init + [last];
    ViewAppend(init, last);
    if i == |rows| - 1 {
      assert rows[i := o] == init + [o];
      ViewAppend(init, o);
      MapUpdateTwice(View(init), KeyOf(o), LineOf(last), LineOf(o));
    } else {
      PrefixUnique(rows);
      assert rows[i := o] == init[i := o] + [last];
      ViewAppend(init[i := o], last);
      ViewReplace(init, i, o);
      assert KeyOf(last) != KeyOf(o) by { assert KeyOf(rows[i]) != KeyOf(rows[|rows| - 1]); }
      MapUpdateSwap(View(init), KeyOf(o), LineOf(o), KeyOf(last), LineOf(last));
    }
  }

  /** `rows` without its `i`th row. */
  function RemoveAt(rows: seq<Order>, i: nat): (r: seq<Order>)
    requires i < |rows|
    ensures |r| == |rows| - 1
    ensures forall j :: 0 <= j < |r| ==> r[j] == if j < i then rows[j] else rows[j + 1]
  {
    rows[..i] + rows[i + 1..]
  }

  /** Deleting a row keeps the keys unique. */
  lemma RemoveAtUnique(rows: seq<Order>, i: nat)
    requires UniqueKeys(rows) && i < |rows|
    ensures UniqueKeys(RemoveAt(rows, i))
  {
    var r := RemoveAt(rows, i);
    forall a, b | 0 <= a < b < |r| ensures KeyOf(r[a]) != KeyOf(r[b]) {
      var a', b' := if a < i then a else a + 1, if b < i then b else b + 1;
      assert r[a] == rows[a'] && r[b] == rows[b'] && a' < b';
    }
  }

  /** Dropping the last row keeps the keys unique. */
  lemma PrefixUnique(rows: seq<Order>)
    requires UniqueKeys(rows) && rows != []
    ensures UniqueKeys(rows[..|rows| - 1])
  {
    var init := rows[..|rows| - 1];
    forall a, b | 0 <= a < b < |init| ensures KeyOf(init[a]) != KeyOf(init[b]) {
      assert init[a] == rows[a] && init[b] == rows[b];
    }
  }

  lemma MapAddRemove<K, V>(m: map<K, V>, k: K, v: V)
    requires k !in m
    ensures m[k := v] - {k} == m
  {
  }

  lemma MapRemoveAdd<K, V>(m: map<K, V>, k: K, k': K, v: V)
    requires k != k'
    ensures (m - {k})[k' := v] == m[k' := v] - {k}
  {
  }

  /** Deleting a row takes its key out of the view. */
  lemma {:induction false} ViewRemove(rows: seq<Order>, i: nat)
    requires UniqueKeys(rows) && i < |rows|
    ensures UniqueKeys(RemoveAt(rows, i))
    ensures View(RemoveAt(rows, i)) == View(rows) - {KeyOf(rows[i])}
  {
    RemoveAtUnique(rows, i);
    var init := rows[..|rows| - 1];
    var last := rows[|rows| - 1];
    var k := KeyOf(rows[i]);
    assert rows == init + [last];
    ViewAppend(init, last);
    if i == |rows| - 1 {
      assert RemoveAt(rows, i) == init;
      ViewDomain(init);
      MapAddRemove(View(init), k, LineOf(last));
    } else {
      PrefixUnique(rows);
      assert RemoveAt(rows, i) == RemoveAt(init, i) + [last];
      ViewAppend(RemoveAt(init, i), last);
      ViewRemove(init, i);
      assert KeyOf(last) != k by { assert KeyOf(rows[i]) != KeyOf(rows[|rows| - 1]); }
      MapRemoveAdd(View(init), k, KeyOf(last), LineOf(last));
    }
  }

  /** Rows with unique keys: Order.get on a key never raises MultipleObjectsReturned. */
  lemma GetUnique(rows: seq<Order>, key: Key)
    requires UniqueKeys(rows)
    ensures Get(rows, HasKey(key)) != MultipleFound
    ensures Get(rows, HasKey(key)) == NotFound <==> key !in View(rows)
    ensures Get(rows, HasKey(key)).Found? ==> KeyOf(rows[Get(rows, HasKey(key)).index]) == key
  {
    ViewDomain(rows);
  }

  // ---------------------------------------------------------------------
  // add_order: increment or insert (bot.py:228-243)
  // ---------------------------------------------------------------------

  /** One valid fragment of add_order: `inc__quantity` on the existing row, or save a new Order with no price. */
  function AddToRow(rows: seq<Order>, key: Key, quantity: int): (r: seq<Order>)
    requires UniqueKeys(rows)
  {
    GetUnique(rows, key);
    match Get(rows, HasKey(key))
    case Found(i) => rows[i := rows[i].(quantity := rows[i].quantity + quantity)]
    case NotFound => rows + [NewOrder(key.session, key.username, key.order, quantity)]
  }

  /** Incrementing the row that holds the key grows that line only. */
  lemma AddFoundView(rows: seq<Order>, key: Key, quantity: int, i: nat)
    requires UniqueKeys(rows) && i < |rows| && KeyOf(rows[i]) == key
    ensures UniqueKeys(rows[i := rows[i].(quantity := rows[i].quantity + quantity)])
    ensures View(rows[i := rows[i].(quantity := rows[i].quantity + quantity)]) == AddedView(View(rows), key, quantity)
  {
    ViewAt(rows, i);
    ViewReplace(rows, i, rows[i].(quantity := rows[i].quantity + quantity));
  }

  /** Inserting a row for a key the ledger lacks adds its line, with no price. */
  lemma AddNewView(rows: seq<Order>, key: Key, quantity: int)
    requires UniqueKeys(rows) && key !in View(rows)
    ensures UniqueKeys(rows + [NewOrder(key.session, key.username, key.order, quantity)])
    ensures View(rows + [NewOrder(key.session, key.username, key.order, quantity)]) == AddedView(View(rows), key, quantity)
  {
    var o := NewOrder(key.session, key.username, key.order, quantity);
    assert KeyOf(o) == key && LineOf(o) == Line(quantity, None);
    AppendFresh(rows, o);
  }

  /**
   * Merge on add: an existing row for the key grows by exactly `quantity`
   * and no row appears; otherwise exactly one row is inserted, with that
   * quantity and no price. No other line changes.
   */
  lemma AddToRowView(rows: seq<Order>, key: Key, quantity: int)
    requires UniqueKeys(rows)
    ensures UniqueKeys(AddToRow(rows, key, quantity))
    ensures View(AddToRow(rows, key, quantity)) == AddedView(View(rows), key, quantity)
    ensures |AddToRow(rows, key, quantity)| == if key in View(rows) then |rows| else |rows| + 1
  {
    GetUnique(rows, key);
    var g := Get(rows, HasKey(key));
    if g.Found? {
      var i := g.index;
      assert AddToRow(rows, key, quantity) == rows[i := rows[i].(quantity := rows[i].quantity + quantity)];
      AddFoundView(rows, key, quantity, i);
    } else {
      assert AddToRow(rows, key, quantity) == rows + [NewOrder(key.session, key.username, key.order, quantity)];
      AddNewView(rows, key, quantity);
    }
  }

  /** The name a fragment of an /add or /delete payload parses to (bot.py:222, 260). */
  function FragmentDetails(fragment: string): (nat, string) {
    Parsing.Extracted(Strip(fragment))
  }

  datatype AddOutcome = Added | InvalidOrder

  /** The loop of add_order over its fragments (bot.py:219-243), from the current rows. */
  function AddFragments(rows: seq<Order>, session: ChatId, username: string, fragments: seq<string>): (r: (seq<Order>, AddOutcome))
    requires UniqueKeys(rows)
    ensures UniqueKeys(r.0)
    decreases |fragments|
  {
    if fragments == [] then (rows, Added)
    else
      var (quantity, order) := FragmentDetails(fragments[0]);
      if order == "" then (rows, InvalidOrder)
      else
        AddToRowView(rows, Key(session, username, order), quantity);
        AddFragments(AddToRow(rows, Key(session, username, order), quantity), session, username, fragments[1..])
  }

  /**
   * add_order stops at the first fragment whose name is empty: the
   * fragments before it stay applied, it and the ones after it are not,
   * and the outcome is InvalidOrder; with no such fragment all are applied.
   */
  lemma {:induction false} AddStopsAtFirstInvalid(rows: seq<Order>, session: ChatId, username: string, fragments: seq<string>, k: nat)
    requires UniqueKeys(rows) && k <= |fragments|
    requires forall j :: 0 <= j < k ==> FragmentDetails(fragments[j]).1 != ""
    requires k < |fragments| ==> FragmentDetails(fragments[k]).1 == ""
    ensures AddFragments(rows, session, username, fragments[..k]).1 == Added
    ensures AddFragments(rows, session, username, fragments) ==
      (AddFragments(rows, session, username, fragments[..k]).0, if k < |fragments| then InvalidOrder else Added)
    decreases k
  {
    if k == 0 {
      assert fragments[..k] == [];
    } else {
      var prefix := fragments[..k];
      PrefixTail(fragments, k);
      var details := FragmentDetails(fragments[0]);
      var key := Key(session, username, details.1);
      AddFragmentsStep(rows, session, username, fragments);
      AddFragmentsStep(rows, session, username, prefix);
      AddToRowView(rows, key, details.0);
      AddStopsAtFirstInvalid(AddToRow(rows, key, details.0), session, username, fragments[1..], k - 1);
    }
  }

  /** The tail of a non-empty prefix is a prefix of the tail. */
  lemma PrefixTail<T>(xs: seq<T>, k: nat)
    requires 0 < k <= |xs|
    ensures xs[..k][0] == xs[0] && xs[..k][1..] == xs[1..][..k - 1]
  {
  }

  /** Dropping the element at `k` from a sequence, seen from its head. */
  lemma DropAt<T>(xs: seq<T>, k: nat)
    requires k < |xs|
    ensures k == 0 ==> xs[..k] + xs[k + 1..] == xs[1..]
    ensures k > 0 ==> (xs[..k] + xs[k + 1..])[0] == xs[0]
    ensures k > 0 ==> (xs[..k] + xs[k + 1..])[1..] == xs[1..][..k - 1] + xs[1..][k..]
  {
    if k > 0 {
      assert (xs[..k] + xs[k + 1..])[1..] == xs[1..][..k - 1] + xs[1..][k..];
    }
  }

  /** One step of a loop over `xs[i..]`. */
  lemma SuffixStep<T>(xs: seq<T>, i: nat)
    requires i < |xs|
    ensures xs[i..][0] == xs[i] && xs[i..][1..] == xs[i + 1..]
  {
  }

  /** One valid fragment, then the rest. */
  lemma AddFragmentsStep(rows: seq<Order>, session: ChatId, username: string, fragments: seq<string>)
    requires UniqueKeys(rows) && fragments != [] && FragmentDetails(fragments[0]).1 != ""
    ensures UniqueKeys(AddToRow(rows, Key(session, username, FragmentDetails(fragments[0]).1), FragmentDetails(fragments[0]).0))
    ensures AddFragments(rows, session, username, fragments) ==
      AddFragments(AddToRow(rows, Key(session, username, FragmentDetails(fragments[0]).1), FragmentDetails(fragments[0]).0), session, username, fragments[1..])
  {
    AddToRowView(rows, Key(session, username, FragmentDetails(fragments[0]).1), FragmentDetails(fragments[0]).0);
  }

  /** Adding the same item twice accumulates in one row: a fresh key ends with q1 + q2 and no price. */
  lemma AddTwice(rows: seq<Order>, key: Key, q1: int, q2: int)
    requires UniqueKeys(rows) && key !in View(rows)
    ensures UniqueKeys(AddToRow(rows, key, q1))
    ensures View(AddToRow(AddToRow(rows, key, q1), key, q2)) == View(rows)[key := Line(q1 + q2, None)]
    ensures |AddToRow(AddToRow(rows, key, q1), key, q2)| == |rows| + 1
  {
    var once := AddToRow(rows, key, q1);
    AddToRowView(rows, key, q1);
    AddToRowView(once, key, q2);
    AddedTwice(View(rows), key, q1, q2);
  }

  /** add_order keeps the ledger invariant: parsed quantities are at least 1 and empty names are refused. */
  lemma {:induction false} AddFragmentsInvariant(rows: seq<Order>, session: ChatId, username: string, fragments: seq<string>)
    requires Invariant(rows)
    ensures Invariant(AddFragments(rows, session, username, fragments).0)
    ensures forall k :: k in View(AddFragments(rows, session, username, fragments).0) ==> k in View(rows) || (k.session == session && k.username == username)
    ensures View(rows).Keys <= View(AddFragments(rows, session, username, fragments).0).Keys
    ensures forall k: Key :: !(k.session == session && k.username == username) ==>
      (k in View(AddFragments(rows, session, username, fragments).0) <==> k in View(rows)) &&
      (k in View(rows) ==> View(AddFragments(rows, session, username, fragments).0)[k] == View(rows)[k])
    decreases |fragments|
  {
    if fragments != [] {
      var (quantity, order) := FragmentDetails(fragments[0]);
      if order != "" {
        var key := Key(session, username, order);
        AddToRowView(rows, key, quantity);
        AddedViewOk(View(rows), key, quantity);
        AddFragmentsInvariant(AddToRow(rows, key, quantity), session, username, fragments[1..]);
      }
    }
  }

  // ---------------------------------------------------------------------
  // delete_order: decrement or delete (bot.py:259-271)
  // ---------------------------------------------------------------------

  /**
   * One fragment of delete_order: a row not found is left alone; a quantity
   * at least the row's deletes it; a smaller one lowers it. The handler's
   * `abs(int(quantity))` is the identity on the parser's quantity, which is
   * a natural number.
   */
  function DeleteFromRow(rows: seq<Order>, key: Key, n: nat): (r: seq<Order>)
    requires UniqueKeys(rows)
  {
    GetUnique(rows, key);
    match Get(rows, HasKey(key))
    case Found(i) =>
      if n >= rows[i].quantity then RemoveAt(rows, i)
      else rows[i := rows[i].(quantity := rows[i].quantity - n)]
    case NotFound => rows
  }

  /**
   * Decrement or delete: with |quantity| at least the row's quantity the
   * key leaves the ledger, otherwise its quantity falls by exactly
   * |quantity|; a missing key changes nothing.
   */
  lemma DeleteFromRowView(rows: seq<Order>, key: Key, n: nat)
    requires UniqueKeys(rows)
    ensures UniqueKeys(DeleteFromRow(rows, key, n))
    ensures View(DeleteFromRow(rows, key, n)) == DeletedView(View(rows), key, n)
  {
    GetUnique(rows, key);
    var g := Get(rows, HasKey(key));
    if g.Found? {
      var i := g.index;
      assert DeleteFromRow(rows, key, n) ==
        if n >= rows[i].quantity then RemoveAt(rows, i) else rows[i := rows[i].(quantity := rows[i].quantity - n)];
      DeleteFoundView(rows, key, n, i);
    } else {
      assert DeleteFromRow(rows, key, n) == rows;
    }
  }

  /** Deleting from the row that holds the key: the row goes, or its quantity falls by `n`. */
  lemma DeleteFoundView(rows: seq<Order>, key: Key, n: nat, i: nat)
    requires UniqueKeys(rows) && i < |rows| && KeyOf(rows[i]) == key
    ensures var r := if n >= rows[i].quantity then RemoveAt(rows, i) else rows[i := rows[i].(quantity := rows[i].quantity - n)];
      UniqueKeys(r) && View(r) == DeletedView(View(rows), key, n)
  {
    ViewAt(rows, i);
    if n >= rows[i].quantity {
      ViewRemove(rows, i);
      assert DeletedView(View(rows), key, n) == View(rows) - {key};
    } else {
      var o := rows[i].(quantity := rows[i].quantity - n);
      ViewReplace(rows, i, o);
      assert KeyOf(o) == key && LineOf(o) == Line(View(rows)[key].quantity - n, View(rows)[key].price);
      assert DeletedView(View(rows), key, n) == View(rows)[key := LineOf(o)];
    }
  }

  /** The loop of delete_order: every fragment is applied, whatever its name. */
  function DeleteFragments(rows: seq<Order>, session: ChatId, username: string, fragments: seq<string>): (r: seq<Order>)
    requires UniqueKeys(rows)
    ensures UniqueKeys(r)
    decreases |fragments|
  {
    if fragments == [] then rows
    else
      var (quantity, order) := FragmentDetails(fragments[0]);
      DeleteFromRowView(rows, Key(session, username, order), quantity);
      DeleteFragments(DeleteFromRow(rows, Key(session, username, order), quantity), session, username, fragments[1..])
  }

  /**
   * delete_order keeps the invariant (a surviving row's quantity stays
   * positive) and only ever removes or lowers the sender's lines in this
   * session: a surviving line keeps its price, and every other line keeps
   * its presence and its value.
   */
  lemma {:induction false} DeleteFragmentsInvariant(rows: seq<Order>, session: ChatId, username: string, fragments: seq<string>)
    requires Invariant(rows)
    ensures Invariant(DeleteFragments(rows, session, username, fragments))
    ensures forall k :: k in View(DeleteFragments(rows, session, username, fragments)) ==>
      k in View(rows) && View(DeleteFragments(rows, session, username, fragments))[k].quantity <= View(rows)[k].quantity &&
      View(DeleteFragments(rows, session, username, fragments))[k].price == View(rows)[k].price
    ensures forall k: Key :: !(k.session == session && k.username == username) ==>
      (k in View(DeleteFragments(rows, session, username, fragments)) <==> k in View(rows)) &&
      (k in View(rows) ==> View(DeleteFragments(rows, session, username, fragments))[k] == View(rows)[k])
    decreases |fragments|
  {
    DeleteFrame(rows, session, username, fragments);
    if fragments != [] {
      var (quantity, order) := FragmentDetails(fragments[0]);
      var key := Key(session, username, order);
      DeleteFromRowView(rows, key, quantity);
      DeletedViewOk(View(rows), key, quantity);
      DeleteFragmentsInvariant(DeleteFromRow(rows, key, quantity), session, username, fragments[1..]);
    }
  }

  /**
   * `after` arises from `before` by removing or changing only lines of
   * `username` in `session`, and every line it keeps has its old price.
   */
  ghost predicate DeleteFramed(before: map<Key, Line>, after: map<Key, Line>, session: ChatId, username: string) {
    (forall k :: k in after ==> k in before && after[k].price == before[k].price) &&
    (forall k: Key :: !(k.session == session && k.username == username) && k in before ==> k in after && after[k] == before[k])
  }

  /** One delete_order fragment touches only its own key and keeps the price of what survives. */
  lemma DeletedViewFrame(v: map<Key, Line>, key: Key, n: nat)
    ensures DeleteFramed(v, DeletedView(v, key, n), key.session, key.username)
  {
  }

  /** Two steps that each touch only the sender's lines in the session touch only those lines together. */
  lemma DeleteFramedTrans(a: map<Key, Line>, b: map<Key, Line>, c: map<Key, Line>, session: ChatId, username: string)
    requires DeleteFramed(a, b, session, username) && DeleteFramed(b, c, session, username)
    ensures DeleteFramed(a, c, session, username)
  {
  }

  /** delete_order touches only the sender's lines in this session, and a line it keeps keeps its price. */
  lemma {:induction false} DeleteFrame(rows: seq<Order>, session: ChatId, username: string, fragments: seq<string>)
    requires UniqueKeys(rows)
    ensures DeleteFramed(View(rows), View(DeleteFragments(rows, session, username, fragments)), session, username)
    decreases |fragments|
  {
    if fragments == [] {
      assert DeleteFragments(rows, session, username, fragments) == rows;
    } else {
      var (quantity, order) := FragmentDetails(fragments[0]);
      var key := Key(session, username, order);
      var next := DeleteFromRow(rows, key, quantity);
      DeleteFromRowView(rows, key, quantity);
      DeletedViewFrame(View(rows), key, quantity);
      DeleteFrame(next, session, username, fragments[1..]);
      assert DeleteFragments(rows, session, username, fragments) == DeleteFragments(next, session, username, fragments[1..]);
      DeleteFramedTrans(View(rows), View(next), View(DeleteFragments(next, session, username, fragments[1..])), session, username);
    }
  }

  // ---------------------------------------------------------------------
  // set_price: bulk update (bot.py:93-99)
  // ---------------------------------------------------------------------

  function Reprice(o: Order, session: ChatId, order: string, price: real): Order {
    if o.session == session && o.order == order then o.(price := Some(price)) else o
  }

  /** `Order.objects(session=session, order=order).update(price=price)`: every row of that name in the session, whoever ordered it. */
  function UpdatePrice(rows: seq<Order>, session: ChatId, order: string, price: real): (r: seq<Order>)
    ensures |r| == |rows|
    ensures forall i :: 0 <= i < |r| ==> r[i] == Reprice(rows[i], session, order, price)
  {
    if rows == [] then []
    else UpdatePrice(rows[..|rows| - 1], session, order, price) + [Reprice(rows[|rows| - 1], session, order, price)]
  }

  /** The bulk update reprices exactly the lines of that name in the session and leaves every key and quantity alone. */
  lemma {:induction false} UpdatePriceView(rows: seq<Order>, session: ChatId, order: string, price: real)
    ensures View(UpdatePrice(rows, session, order, price)) == RepricedView(View(rows), session, order, price)
    ensures UniqueKeys(rows) ==> UniqueKeys(UpdatePrice(rows, session, order, price))
  {
    var r := UpdatePrice(rows, session, order, price);
    assert forall i :: 0 <= i < |r| ==> KeyOf(r[i]) == KeyOf(rows[i]);
    if rows != [] {
      var init := rows[..|rows| - 1];
      var last := rows[|rows| - 1];
      assert r[..|r| - 1] == UpdatePrice(init, session, order, price);
      UpdatePriceView(init, session, order, price);
      assert LineOf(Reprice(last, session, order, price)) == RepricedLine(KeyOf(last), LineOf(last), session, order, price);
      RepricedViewUpdate(View(init), KeyOf(last), LineOf(last), session, order, price);
    }
  }

  datatype PriceOutcome = PricesSet | MalformedPair

  /** `abs(float(text))` when `is_digit(text)` holds, None when it does not (set_price, set_service, set_tax). */
  function AbsNumeral(text: string): (r: Option<real>)
    ensures r.Some? <==> ParseDecimal(text).Some?
    ensures r.Some? ==> r.value >= 0.0 && (r.value == ParseDecimal(text).value || r.value == -ParseDecimal(text).value)
  {
    match ParseDecimal(text)
    case Some(v) => Some(Abs(v))
    case None => None
  }

  /**
   * The loop of set_price over the comma-separated pairs: `name=value` with
   * a numeric value reprices, with any other value is skipped, and a pair
   * that does not split into exactly two parts on '=' raises ValueError,
   * which ends the handler with the earlier pairs applied.
   */
  function SetPrices(rows: seq<Order>, session: ChatId, pairs: seq<string>): (r: (seq<Order>, PriceOutcome))
    decreases |pairs|
  {
    if pairs == [] then (rows, PricesSet)
    else
      var parts := Split(pairs[0], '=');
      if |parts| != 2 then (rows, MalformedPair)
      else match AbsNumeral(Strip(parts[1]))
        case Some(p) => SetPrices(UpdatePrice(rows, session, Strip(parts[0]), p), session, pairs[1..])
        case None => SetPrices(rows, session, pairs[1..])
  }

  /** A well-formed pair with a non-numeric value is skipped: the result is as if it were not there. */
  lemma {:induction false} SetPricesSkipsNonNumeric(rows: seq<Order>, session: ChatId, pairs: seq<string>, k: nat)
    requires k < |pairs|
    requires |Split(pairs[k], '=')| == 2 && AbsNumeral(Strip(Split(pairs[k], '=')[1])).None?
    ensures SetPrices(rows, session, pairs) == SetPrices(rows, session, pairs[..k] + pairs[k + 1..])
    decreases k
  {
    DropAt(pairs, k);
    if k > 0 {
      var parts := Split(pairs[0], '=');
      if |parts| == 2 {
        match AbsNumeral(Strip(parts[1]))
        case Some(p) =>
          SetPricesSkipsNonNumeric(UpdatePrice(rows, session, Strip(parts[0]), p), session, pairs[1..], k - 1);
        case None =>
          SetPricesSkipsNonNumeric(rows, session, pairs[1..], k - 1);
      }
    }
  }

  /** One bulk update with a non-negative price keeps the ledger invariant and adds or removes no line. */
  lemma UpdatePriceInvariant(rows: seq<Order>, session: ChatId, order: string, price: real)
    requires Invariant(rows) && price >= 0.0
    ensures Invariant(UpdatePrice(rows, session, order, price))
    ensures View(UpdatePrice(rows, session, order, price)).Keys == View(rows).Keys
  {
    UpdatePriceView(rows, session, order, price);
    RepricedViewOk(View(rows), session, order, price);
  }

  /** set_price keeps the ledger invariant: prices it writes are non-negative, and it adds or removes no line. */
  lemma {:induction false} SetPricesInvariant(rows: seq<Order>, session: ChatId, pairs: seq<string>)
    requires Invariant(rows)
    ensures Invariant(SetPrices(rows, session, pairs).0)
    ensures View(SetPrices(rows, session, pairs).0).Keys == View(rows).Keys
    decreases |pairs|
  {
    if pairs != [] {
      var parts := Split(pairs[0], '=');
      if |parts| == 2 {
        match AbsNumeral(Strip(parts[1]))
        case Some(p) =>
          UpdatePriceInvariant(rows, session, Strip(parts[0]), p);
          SetPricesInvariant(UpdatePrice(rows, session, Strip(parts[0]), p), session, pairs[1..]);
        case None =>
          SetPricesInvariant(rows, session, pairs[1..]);
      }
    }
  }

  /**
   * `after` has the lines of `before`, each with its quantity, and changes
   * nothing at all outside `session`: only prices in the session can move.
   */
  ghost predicate PriceFramed(before: map<Key, Line>, after: map<Key, Line>, session: ChatId) {
    after.Keys == before.Keys &&
    (forall k :: k in after ==> after[k].quantity == before[k].quantity) &&
    (forall k :: k in after && k.session != session ==> after[k] == before[k])
  }

  /** One bulk update touches only prices, and only in its session. */
  lemma RepricedViewFrame(v: map<Key, Line>, session: ChatId, order: string, price: real)
    ensures PriceFramed(v, RepricedView(v, session, order, price), session)
  {
  }

  lemma PriceFramedTrans(a: map<Key, Line>, b: map<Key, Line>, c: map<Key, Line>, session: ChatId)
    requires PriceFramed(a, b, session) && PriceFramed(b, c, session)
    ensures PriceFramed(a, c, session)
  {
  }

  /** set_price as a whole adds or removes no line, changes no quantity, and leaves other sessions' lines alone. */
  lemma {:induction false} SetPricesFrame(rows: seq<Order>, session: ChatId, pairs: seq<string>)
    ensures PriceFramed(View(rows), View(SetPrices(rows, session, pairs).0), session)
    decreases |pairs|
  {
    if pairs == [] {
      assert SetPrices(rows, session, pairs).0 == rows;
    } else {
      var parts := Split(pairs[0], '=');
      if |parts| != 2 {
        assert SetPrices(rows, session, pairs).0 == rows;
      } else {
        match AbsNumeral(Strip(parts[1]))
        case Some(p) =>
          var next := UpdatePrice(rows, session, Strip(parts[0]), p);
          UpdatePriceView(rows, session, Strip(parts[0]), p);
          RepricedViewFrame(View(rows), session, Strip(parts[0]), p);
          SetPricesFrame(next, session, pairs[1..]);
          PriceFramedTrans(View(rows), View(next), View(SetPrices(next, session, pairs[1..]).0), session);
        case None =>
          SetPricesFrame(rows, session, pairs[1..]);
      }
    }
  }

  /** Every row's session is a stored one as soon as every key of the view names one. */
  lemma ResolveFromView(sessions: map<ChatId, Session>, rows: seq<Order>)
    requires forall k :: k in View(rows) ==> k.session in sessions
    ensures OrdersResolve(sessions, rows)
  {
    ViewDomain(rows);
    forall i | 0 <= i < |rows| ensures rows[i].session in sessions {
      assert KeyOf(rows[i]) in View(rows);
    }
  }

  /** Conversely, the keys of the view name only sessions the rows refer to. */
  lemma ViewFromResolve(sessions: map<ChatId, Session>, rows: seq<Order>)
    requires OrdersResolve(sessions, rows)
    ensures forall k :: k in View(rows) ==> k.session in sessions
  {
    ViewDomain(rows);
  }

  /** One valid add_order fragment keeps the ledger invariant and keeps every row pointing at a stored session. */
  lemma AddToRowKeeps(sessions: map<ChatId, Session>, rows: seq<Order>, key: Key, quantity: int)
    requires Invariant(rows) && OrdersResolve(sessions, rows)
    requires key.session in sessions && key.order != "" && quantity > 0
    ensures Invariant(AddToRow(rows, key, quantity))
    ensures OrdersResolve(sessions, AddToRow(rows, key, quantity))
  {
    AddToRowView(rows, key, quantity);
    AddedViewOk(View(rows), key, quantity);
    ViewFromResolve(sessions, rows);
    ResolveFromView(sessions, AddToRow(rows, key, quantity));
  }

  /** One delete_order fragment keeps the ledger invariant and keeps every row pointing at a stored session. */
  lemma DeleteFromRowKeeps(sessions: map<ChatId, Session>, rows: seq<Order>, key: Key, n: nat)
    requires Invariant(rows) && OrdersResolve(sessions, rows)
    ensures Invariant(DeleteFromRow(rows, key, n))
    ensures OrdersResolve(sessions, DeleteFromRow(rows, key, n))
  {
    DeleteFromRowView(rows, key, n);
    DeletedViewOk(View(rows), key, n);
    ViewFromResolve(sessions, rows);
    ResolveFromView(sessions, DeleteFromRow(rows, key, n));
  }

  // ---------------------------------------------------------------------
  // end_session: the cascade seen from the ledger
  // ---------------------------------------------------------------------

  /** The cascade on Orders keeps the keys unique. */
  lemma {:induction false} CascadeUnique(rows: seq<Order>, chatId: ChatId)
    requires UniqueKeys(rows)
    ensures UniqueKeys(CascadeOrders(rows, chatId))
  {
    if rows != [] {
      var init := rows[..|rows| - 1];
      var last := rows[|rows| - 1];
      CascadeUnique(init, chatId);
      var c := CascadeOrders(init, chatId);
      if last.session != chatId {
        assert CascadeOrders(rows, chatId) == c + [last];
        forall i | 0 <= i < |c| ensures KeyOf(c[i]) != KeyOf(last) {
          assert c[i] in init;
          var j :| 0 <= j < |init| && init[j] == c[i];
          assert KeyOf(rows[j]) != KeyOf(rows[|rows| - 1]);
        }
      }
    }
  }

  /** Deleting a session removes exactly its lines from the ledger. */
  lemma {:induction false} CascadeView(rows: seq<Order>, chatId: ChatId)
    ensures View(CascadeOrders(rows, chatId)) == CascadedView(View(rows), chatId)
  {
    if rows != [] {
      var init := rows[..|rows| - 1];
      var last := rows[|rows| - 1];
      CascadeView(init, chatId);
      var c := CascadeOrders(init, chatId);
      var v := View(init);
      assert View(rows) == v[KeyOf(last) := LineOf(last)];
      CascadedViewUpdate(v, KeyOf(last), LineOf(last), chatId);
      if last.session == chatId {
        assert CascadeOrders(rows, chatId) == c;
      } else {
        assert CascadeOrders(rows, chatId) == c + [last];
        ViewAppend(c, last);
      }
    }
  }
}
