/**
 * The read side of the bot: the `$match`/`$group` pipelines of `all_orders`
 * and `bill` (bot.py:140-153, 177-192), the unpriced-orders query and the
 * per-head split of service and tax (bot.py:166-175, 194).
 *
 * A `$group` stage is modelled once, generically, as `GroupBy`: one group
 * per distinct key, in order of first appearance, whose accumulator folds
 * the group's rows in collection order. `GroupByCorrect` ties each group to
 * an independent reference, the fold of `Select` (the rows with that key).
 */
module Aggregation {
  import opened Wrappers
  import opened Db

  // ---------------------------------------------------------------------
  // Filtering and grouping
  // ---------------------------------------------------------------------

  /** The rows whose field `key` equals `k`, in collection order: a `$match` or a `filter(field=k)`. */
  function Select<T(!new), K(==)>(rows: seq<T>, key: T -> K, k: K): (r: seq<T>)
    ensures |r| <= |rows|
    ensures forall i :: 0 <= i < |r| ==> key(r[i]) == k
    ensures forall x :: x in r <==> x in rows && key(x) == k
  {
    if rows == [] then []
    else
      var init := Select(rows[..|rows| - 1], key, k);
      var last := rows[|rows| - 1];
      assert rows == rows[..|rows| - 1] + [last];
      if key(last) == k then init + [last] else init
  }

  /** The test `field == k` on a row, as a predicate value. */
  function KeyIs<T, K(==)>(key: T -> K, k: K): T -> bool {
    x => key(x) == k
  }

  /** `$match` keeps the collection order: the m-th selected row is the row at the m-th matching position. */
  lemma {:induction false} SelectInOrder<T(!new), K>(rows: seq<T>, key: T -> K, k: K)
    ensures var ix := Matching(rows, KeyIs(key, k));
      |Select(rows, key, k)| == |ix| && forall m :: 0 <= m < |ix| ==> Select(rows, key, k)[m] == rows[ix[m]]
  {
    if rows != [] {
      var p := KeyIs(key, k);
      var init := rows[..|rows| - 1];
      var last := rows[|rows| - 1];
      SelectInOrder(init, key, k);
      var ix, sel := Matching(init, p), Select(init, key, k);
      assert p(last) == (key(last) == k);
      if key(last) == k {
        assert Matching(rows, p) == ix + [|init|];
        assert Select(rows, key, k) == sel + [last];
      } else {
        assert Matching(rows, p) == ix;
        assert Select(rows, key, k) == sel;
      }
      forall m | 0 <= m < |ix| ensures sel[m] == rows[ix[m]] {
        assert ix[m] < |init|;
        assert init[ix[m]] == rows[ix[m]];
      }
    }
  }

  /** The fold a `$group` accumulator performs over its rows: `start` on the first, `add` for each further one. */
  function Accumulate<T, A>(rows: seq<T>, start: T -> A, add: (A, T) -> A): A
    requires |rows| > 0
  {
    if |rows| == 1 then start(rows[0])
    else add(Accumulate(rows[..|rows| - 1], start, add), rows[|rows| - 1])
  }

  datatype Group<K, A> = Group(key: K, acc: A)

  /** Position of the group with key `k`, if there is one. */
  function FindGroup<K(==), A>(groups: seq<Group<K, A>>, k: K): (r: Option<nat>)
    ensures r.Some? ==> r.value < |groups| && groups[r.value].key == k
    ensures r.None? ==> forall i :: 0 <= i < |groups| ==> groups[i].key != k
  {
    if groups == [] then None
    else if groups[|groups| - 1].key == k then Some(|groups| - 1)
    else FindGroup(groups[..|groups| - 1], k)
  }

  /** One row reaching the `$group` stage: it joins its key's group, or opens a new one. */
  function Absorb<T, K(==), A>(groups: seq<Group<K, A>>, row: T, key: T -> K, start: T -> A, add: (A, T) -> A): seq<Group<K, A>> {
    match FindGroup(groups, key(row))
    case Some(i) => groups[i := Group(key(row), add(groups[i].acc, row))]
    case None => groups + [Group(key(row), start(row))]
  }

  /** A `$group` stage over `rows`. */
  function GroupBy<T, K(==), A>(rows: seq<T>, key: T -> K, start: T -> A, add: (A, T) -> A): seq<Group<K, A>> {
    if rows == [] then []
    else Absorb(GroupBy(rows[..|rows| - 1], key, start, add), rows[|rows| - 1], key, start, add)
  }

  ghost predicate DistinctKeys<K, A>(groups: seq<Group<K, A>>) {
    forall i, j :: 0 <= i < j < |groups| ==> groups[i].key != groups[j].key
  }

  function GroupKeys<K, A>(groups: seq<Group<K, A>>): set<K> {
    set i | 0 <= i < |groups| :: groups[i].key
  }

  function RowKeys<T, K>(rows: seq<T>, key: T -> K): set<K> {
    set j | 0 <= j < |rows| :: key(rows[j])
  }

  /** No row carries a key outside RowKeys, so selecting such a key yields nothing. */
  lemma SelectAbsent<T(!new), K>(rows: seq<T>, key: T -> K, k: K)
    requires k !in RowKeys(rows, key)
    ensures Select(rows, key, k) == []
  {
  }

  lemma RowKeysSnoc<T, K>(rows: seq<T>, key: T -> K)
    requires rows != []
    ensures RowKeys(rows, key) == RowKeys(rows[..|rows| - 1], key) + {key(rows[|rows| - 1])}
  {
    var init := rows[..|rows| - 1];
    forall k | k in RowKeys(rows, key) ensures k in RowKeys(init, key) + {key(rows[|rows| - 1])} {
      var j :| 0 <= j < |rows| && key(rows[j]) == k;
      if j < |init| { assert key(init[j]) == k; }
    }
    forall k | k in RowKeys(init, key) ensures k in RowKeys(rows, key) {
      var j :| 0 <= j < |init| && key(init[j]) == k;
      assert key(rows[j]) == k;
    }
  }

  /** A `$group` stage yields one group per distinct key of its input, and no other. */
  lemma {:induction false} GroupByKeys<T, K, A>(rows: seq<T>, key: T -> K, start: T -> A, add: (A, T) -> A)
    ensures DistinctKeys(GroupBy(rows, key, start, add))
    ensures GroupKeys(GroupBy(rows, key, start, add)) == RowKeys(rows, key)
  {
    if rows != [] {
      var init := rows[..|rows| - 1];
      var last := rows[|rows| - 1];
      var before := GroupBy(init, key, start, add);
      var groups := GroupBy(rows, key, start, add);
      GroupByKeys(init, key, start, add);
      RowKeysSnoc(rows, key);
      match FindGroup(before, key(last))
      case Some(f) =>
        assert groups == before[f := Group(key(last), add(before[f].acc, last))];
        assert forall i :: 0 <= i < |groups| ==> groups[i].key == before[i].key;
        assert GroupKeys(groups) == GroupKeys(before);
      case None =>
        assert groups == before + [Group(key(last), start(last))];
        assert GroupKeys(groups) == GroupKeys(before) + {key(last)} by {
          forall k | k in GroupKeys(groups) ensures k in GroupKeys(before) + {key(last)} {
            var i :| 0 <= i < |groups| && groups[i].key == k;
            if i < |before| { assert before[i].key == k; }
          }
          forall k | k in GroupKeys(before) ensures k in GroupKeys(groups) {
            var i :| 0 <= i < |before| && before[i].key == k;
            assert groups[i].key == k;
          }
          assert groups[|before|].key == key(last);
        }
    }
  }

  /** The fold extends by one row on the right. */
  lemma AccumulateSnoc<T, A>(rows: seq<T>, row: T, start: T -> A, add: (A, T) -> A)
    requires |rows| > 0
    ensures Accumulate(rows + [row], start, add) == add(Accumulate(rows, start, add), row)
  {
    assert (rows + [row])[..|rows|] == rows;
  }

  /** Each group's accumulator is the fold over exactly the rows with its key, taken in collection order. */
  ghost predicate FoldsHold<T(!new), K, A>(rows: seq<T>, groups: seq<Group<K, A>>, key: T -> K, start: T -> A, add: (A, T) -> A) {
    forall i :: 0 <= i < |groups| ==>
      |Select(rows, key, groups[i].key)| > 0 && groups[i].acc == Accumulate(Select(rows, key, groups[i].key), start, add)
  }

  lemma SelectSnoc<T(!new), K>(init: seq<T>, last: T, key: T -> K, k: K)
    ensures Select(init + [last], key, k) == if key(last) == k then Select(init, key, k) + [last] else Select(init, key, k)
  {
    assert (init + [last])[..|init|] == init;
  }

  /** A row whose key has a group extends that group's fold and no other. */
  lemma AbsorbJoins<T(!new), K, A>(init: seq<T>, last: T, before: seq<Group<K, A>>, f: nat, key: T -> K, start: T -> A, add: (A, T) -> A)
    requires FoldsHold(init, before, key, start, add) && DistinctKeys(before)
    requires f < |before| && before[f].key == key(last)
    ensures FoldsHold(init + [last], before[f := Group(key(last), add(before[f].acc, last))], key, start, add)
  {
    var groups := before[f := Group(key(last), add(before[f].acc, last))];
    forall i | 0 <= i < |groups|
      ensures |Select(init + [last], key, groups[i].key)| > 0
      ensures groups[i].acc == Accumulate(Select(init + [last], key, groups[i].key), start, add)
    {
      SelectSnoc(init, last, key, groups[i].key);
      if i == f {
        assert |Select(init, key, before[f].key)| > 0 && before[f].acc == Accumulate(Select(init, key, before[f].key), start, add);
        AccumulateSnoc(Select(init, key, key(last)), last, start, add);
      } else {
        assert groups[i] == before[i] && before[i].key != before[f].key;
      }
    }
  }

  /** A row whose key has no group opens one holding the fold of that row alone. */
  lemma AbsorbOpens<T(!new), K, A>(init: seq<T>, last: T, before: seq<Group<K, A>>, key: T -> K, start: T -> A, add: (A, T) -> A)
    requires FoldsHold(init, before, key, start, add)
    requires GroupKeys(before) == RowKeys(init, key) && key(last) !in GroupKeys(before)
    ensures FoldsHold(init + [last], before + [Group(key(last), start(last))], key, start, add)
  {
    var groups := before + [Group(key(last), start(last))];
    forall i | 0 <= i < |groups|
      ensures |Select(init + [last], key, groups[i].key)| > 0
      ensures groups[i].acc == Accumulate(Select(init + [last], key, groups[i].key), start, add)
    {
      SelectSnoc(init, last, key, groups[i].key);
      if i == |before| {
        SelectAbsent(init, key, key(last));
        assert Select(init + [last], key, key(last)) == [last];
      } else {
        assert groups[i] == before[i];
        assert before[i].key in GroupKeys(before);
      }
    }
  }

  lemma {:induction false} GroupByFolds<T(!new), K, A>(rows: seq<T>, key: T -> K, start: T -> A, add: (A, T) -> A)
    ensures FoldsHold(rows, GroupBy(rows, key, start, add), key, start, add)
  {
    if rows != [] {
      var init := rows[..|rows| - 1];
      var last := rows[|rows| - 1];
      var before := GroupBy(init, key, start, add);
      assert rows == init + [last];
      GroupByFolds(init, key, start, add);
      GroupByKeys(init, key, start, add);
      match FindGroup(before, key(last))
      case Some(f) =>
        AbsorbJoins(init, last, before, f, key, start, add);
      case None =>
        AbsorbOpens(init, last, before, key, start, add);
    }
  }

  /** Groups with distinct keys number as many as their keys. */
  lemma {:induction false} GroupCount<K, A>(groups: seq<Group<K, A>>)
    requires DistinctKeys(groups)
    ensures |GroupKeys(groups)| == |groups|
  {
    if groups != [] {
      var init := groups[..|groups| - 1];
      var last := groups[|groups| - 1];
      GroupCount(init);
      assert GroupKeys(groups) == GroupKeys(init) + {last.key} by {
        forall k | k in GroupKeys(groups) ensures k in GroupKeys(init) + {last.key} {
          var i :| 0 <= i < |groups| && groups[i].key == k;
          if i < |init| { assert init[i].key == k; }
        }
        forall k | k in GroupKeys(init) ensures k in GroupKeys(groups) {
          var i :| 0 <= i < |init| && init[i].key == k;
          assert groups[i].key == k;
        }
      }
      assert last.key !in GroupKeys(init);
    }
  }

  /** The keys of the rows that pass a filter on another field. */
  lemma SelectKeys<T(!new), K, L>(rows: seq<T>, key: T -> K, k: K, other: T -> L)
    ensures RowKeys(Select(rows, key, k), other) == set x | x in rows && key(x) == k :: other(x)
  {
    var sel := Select(rows, key, k);
    forall l | l in RowKeys(sel, other) ensures l in set x | x in rows && key(x) == k :: other(x) {
      var j :| 0 <= j < |sel| && other(sel[j]) == l;
      assert sel[j] in sel;
    }
    forall l | l in (set x | x in rows && key(x) == k :: other(x)) ensures l in RowKeys(sel, other) {
      var x :| x in rows && key(x) == k && other(x) == l;
      assert x in sel;
      var j :| 0 <= j < |sel| && sel[j] == x;
    }
  }

  // ---------------------------------------------------------------------
  // Field selectors
  // ---------------------------------------------------------------------

  function SessionOf(o: Order): ChatId { o.session }
  function UsernameOf(o: Order): string { o.username }
  function OrderName(o: Order): string { o.order }
  function PriceOf(o: Order): Option<real> { o.price }

  /** `Order.objects.filter(session=session, username=username)`: what `my_orders` lists. */
  function UserOrders(rows: seq<Order>, session: ChatId, username: string): (r: seq<Order>)
    ensures forall o :: o in r <==> o in rows && o.session == session && o.username == username
  {
    Select(Select(rows, SessionOf, session), UsernameOf, username)
  }

  /** The filter of `my_orders` as a predicate value. */
  function IsUserOrder(session: ChatId, username: string): Order -> bool {
    (o: Order) => o.session == session && o.username == username
  }

  /** The sender's rows extend by one row on the right when it is theirs. */
  lemma UserOrdersSnoc(init: seq<Order>, last: Order, session: ChatId, username: string)
    ensures UserOrders(init + [last], session, username) ==
      if last.session == session && last.username == username then UserOrders(init, session, username) + [last]
      else UserOrders(init, session, username)
  {
    SelectSnoc(init, last, SessionOf, session);
    if last.session == session {
      SelectSnoc(Select(init, SessionOf, session), last, UsernameOf, username);
    }
  }

  lemma MatchingSnoc<T>(init: seq<T>, last: T, p: T -> bool)
    ensures Matching(init + [last], p) == if p(last) then Matching(init, p) + [|init|] else Matching(init, p)
  {
    assert (init + [last])[..|init|] == init;
  }

  /** `my_orders` lists the sender's rows in collection order, each exactly once. */
  lemma {:induction false} UserOrdersInOrder(rows: seq<Order>, session: ChatId, username: string)
    ensures Picks(rows, Matching(rows, IsUserOrder(session, username)), UserOrders(rows, session, username))
  {
    if rows != [] {
      var p := IsUserOrder(session, username);
      var init := rows[..|rows| - 1];
      var last := rows[|rows| - 1];
      assert rows == init + [last];
      UserOrdersInOrder(init, session, username);
      UserOrdersSnoc(init, last, session, username);
      MatchingSnoc(init, last, p);
      PicksSnoc(init, last, Matching(init, p), UserOrders(init, session, username), p(last));
    }
  }

  /** `picked` lists `rows` at the positions `ix`. */
  ghost predicate Picks<T>(rows: seq<T>, ix: seq<nat>, picked: seq<T>) {
    |picked| == |ix| && forall m :: 0 <= m < |ix| ==> ix[m] < |rows| && picked[m] == rows[ix[m]]
  }

  /** Picking from a prefix still picks the same rows once a row is appended, and the new row can be picked at its own position. */
  lemma PicksSnoc<T>(init: seq<T>, last: T, ix: seq<nat>, picked: seq<T>, takeLast: bool)
    requires Picks(init, ix, picked)
    ensures takeLast ==> Picks(init + [last], ix + [|init|], picked + [last])
    ensures !takeLast ==> Picks(init + [last], ix, picked)
  {
  }

  /** `Order.objects(price=None)`: every unpriced row, of every session. */
  function UnknownOrders(rows: seq<Order>): (r: seq<Order>)
    ensures forall o :: o in r <==> o in rows && o.price.None?
  {
    Select(rows, PriceOf, None)
  }

  // ---------------------------------------------------------------------
  // all_orders
  // ---------------------------------------------------------------------

  /** One `{'username': ..., 'quantity': ...}` entry of a group's `users` list. */
  datatype UserQuantity = UserQuantity(username: string, quantity: int)

  /** A group of `all_orders`: `$sum` of quantity, `$first` price, `$push` of the users. */
  datatype Totals = Totals(quantity: int, price: Option<real>, users: seq<UserQuantity>)

  function StartTotals(o: Order): Totals {
    Totals(o.quantity, o.price, [UserQuantity(o.username, o.quantity)])
  }

  function AddTotals(t: Totals, o: Order): Totals {
    Totals(t.quantity + o.quantity, t.price, t.users + [UserQuantity(o.username, o.quantity)])
  }

  /** The result of the all_orders pipeline for one session: groups keyed by order name. */
  function AllOrders(rows: seq<Order>, session: ChatId): seq<Group<string, Totals>> {
    GroupBy(Select(rows, SessionOf, session), OrderName, StartTotals, AddTotals)
  }

  function SumQuantity(rows: seq<Order>): int {
    if rows == [] then 0 else SumQuantity(rows[..|rows| - 1]) + rows[|rows| - 1].quantity
  }

  function UsersOf(rows: seq<Order>): (r: seq<UserQuantity>)
    ensures |r| == |rows|
    ensures forall i :: 0 <= i < |r| ==> r[i] == UserQuantity(rows[i].username, rows[i].quantity)
  {
    if rows == [] then [] else UsersOf(rows[..|rows| - 1]) + [UserQuantity(rows[|rows| - 1].username, rows[|rows| - 1].quantity)]
  }

  /** The totals fold sums the quantities, keeps the first row's price, and lists every row's user. */
  lemma {:induction false} AccumulateTotals(rows: seq<Order>)
    requires |rows| > 0
    ensures Accumulate(rows, StartTotals, AddTotals) == Totals(SumQuantity(rows), rows[0].price, UsersOf(rows))
  {
    if |rows| > 1 {
      var init := rows[..|rows| - 1];
      AccumulateTotals(init);
      assert init[0] == rows[0];
    } else {
      assert rows[..0] == [];
    }
  }

  /**
   * all_orders: one group per distinct order name in the session; its
   * quantity is the sum over the rows of that name, its price is the price
   * of the first such row, and its users list has one entry per row.
   */
  lemma AllOrdersMeaning(rows: seq<Order>, session: ChatId)
    ensures var groups := AllOrders(rows, session);
      && DistinctKeys(groups)
      && GroupKeys(groups) == (set o | o in rows && o.session == session :: o.order)
      && (forall i :: 0 <= i < |groups| ==>
            var named := Select(Select(rows, SessionOf, session), OrderName, groups[i].key);
            && |named| > 0
            && groups[i].acc.quantity == SumQuantity(named)
            && groups[i].acc.price == named[0].price
            && groups[i].acc.users == UsersOf(named)
            && |groups[i].acc.users| == |named|)
  {
    var ours := Select(rows, SessionOf, session);
    var groups := AllOrders(rows, session);
    GroupByKeys(ours, OrderName, StartTotals, AddTotals);
    GroupByFolds(ours, OrderName, StartTotals, AddTotals);
    SelectKeys(rows, SessionOf, session, OrderName);
    assert (set o | o in rows && SessionOf(o) == session :: OrderName(o)) == (set o | o in rows && o.session == session :: o.order);
    forall i | 0 <= i < |groups|
      ensures Accumulate(Select(ours, OrderName, groups[i].key), StartTotals, AddTotals) ==
        Totals(SumQuantity(Select(ours, OrderName, groups[i].key)), Select(ours, OrderName, groups[i].key)[0].price, UsersOf(Select(ours, OrderName, groups[i].key)))
    {
      AccumulateTotals(Select(ours, OrderName, groups[i].key));
    }
  }

  // ---------------------------------------------------------------------
  // bill
  // ---------------------------------------------------------------------

  /** A row's contribution to `net`: price × quantity when the row is priced, nothing otherwise. */
  function RowNet(o: Order): real {
    match o.price
    case Some(p) => p * o.quantity as real
    case None => 0.0
  }

  function AddNet(net: real, o: Order): real {
    net + RowNet(o)
  }

  /** Σ price × quantity over the priced rows. */
  function PricedTotal(rows: seq<Order>): real {
    if rows == [] then 0.0 else PricedTotal(rows[..|rows| - 1]) + RowNet(rows[|rows| - 1])
  }

  lemma {:induction false} AccumulateNet(rows: seq<Order>)
    requires |rows| > 0
    ensures Accumulate(rows, RowNet, AddNet) == PricedTotal(rows)
  {
    if |rows| > 1 {
      AccumulateNet(rows[..|rows| - 1]);
    } else {
      assert rows[..0] == [];
    }
  }

  /** `Order.objects.distinct('username')`: the usernames of the whole collection, every session included. */
  function Usernames(rows: seq<Order>): (r: set<string>)
    ensures forall u :: u in r <==> exists o :: o in rows && o.username == u
  {
    set o | o in rows :: o.username
  }

  /** `charge / number_of_users`, or 0 when there are no users: an equal share that adds back up to the charge. */
  function NormalizedCharge(charge: real, users: nat): real {
    if users > 0 then charge / users as real else 0.0
  }

  /** With N users the charge splits into N equal shares that add back up to it; with none the share is 0. */
  lemma NormalizedChargeSplits(charge: real, users: nat)
    ensures users > 0 ==> NormalizedCharge(charge, users) * users as real == charge
    ensures users == 0 ==> NormalizedCharge(charge, users) == 0.0
    ensures charge >= 0.0 ==> NormalizedCharge(charge, users) >= 0.0
  {
  }

  datatype BillLine = BillLine(username: string, net: real, total: real)

  datatype Bill = Bill(lines: seq<BillLine>, unknown: seq<Order>, service: real, tax: real)

  /** The value the bill handler renders for a session, given the whole Order collection. */
  function MakeBill(session: Session, rows: seq<Order>): Bill {
    Bill(BillLines(UserGroups(rows, session.chatId), Share(session, rows)), UnknownOrders(rows), session.service, session.tax)
  }

  /** The `$group` stage of bill: the session's rows grouped by username, each with its net. */
  function UserGroups(rows: seq<Order>, session: ChatId): seq<Group<string, real>> {
    GroupBy(Select(rows, SessionOf, session), UsernameOf, RowNet, AddNet)
  }

  /** What each line pays on top of its net: its share of the service and of the tax. */
  function Share(session: Session, rows: seq<Order>): real {
    NormalizedCharge(session.service, |Usernames(rows)|) + NormalizedCharge(session.tax, |Usernames(rows)|)
  }

  /** The `$addFields` stage: each user's group becomes a line whose total adds the share to the net. */
  function BillLines(groups: seq<Group<string, real>>, share: real): (lines: seq<BillLine>)
    ensures |lines| == |groups|
    ensures forall i :: 0 <= i < |lines| ==> lines[i] == BillLine(groups[i].key, groups[i].acc, groups[i].acc + share)
  {
    if groups == [] then []
    else BillLines(groups[..|groups| - 1], share) + [BillLine(groups[|groups| - 1].key, groups[|groups| - 1].acc, groups[|groups| - 1].acc + share)]
  }

  /** What the bill charges each line beyond its own orders. */
  function Extras(lines: seq<BillLine>): real {
    if lines == [] then 0.0 else Extras(lines[..|lines| - 1]) + (lines[|lines| - 1].total - lines[|lines| - 1].net)
  }

  /**
   * bill: one line per user with an order in the session; a user's net is
   * Σ price × quantity over their priced rows of the session, and every
   * total is that net plus service/N and tax/N, where N counts the distinct
   * usernames of the whole collection (both shares are 0 when N = 0).
   */
  lemma BillMeaning(session: Session, rows: seq<Order>)
    ensures var b, n := MakeBill(session, rows), |Usernames(rows)|;
      && (forall i, j :: 0 <= i < j < |b.lines| ==> b.lines[i].username != b.lines[j].username)
      && (set i | 0 <= i < |b.lines| :: b.lines[i].username) == (set o | o in rows && o.session == session.chatId :: o.username)
      && |b.lines| == |set o | o in rows && o.session == session.chatId :: o.username|
      && (forall i :: 0 <= i < |b.lines| ==>
            && b.lines[i].net == PricedTotal(UserOrders(rows, session.chatId, b.lines[i].username))
            && b.lines[i].total == b.lines[i].net + NormalizedCharge(session.service, n) + NormalizedCharge(session.tax, n))
      && (forall o :: o in b.unknown <==> o in rows && o.price.None?)
  {
    BillLineUsers(session, rows);
    BillLineAmounts(session, rows);
  }

  /** The bill has one line per distinct username with an order in the session. */
  lemma BillLineUsers(session: Session, rows: seq<Order>)
    ensures var b := MakeBill(session, rows);
      && (forall i, j :: 0 <= i < j < |b.lines| ==> b.lines[i].username != b.lines[j].username)
      && (set i | 0 <= i < |b.lines| :: b.lines[i].username) == (set o | o in rows && o.session == session.chatId :: o.username)
      && |b.lines| == |set o | o in rows && o.session == session.chatId :: o.username|
  {
    BillUsers(Select(rows, SessionOf, session.chatId), session.chatId, rows);
    BillLinesKeys(UserGroups(rows, session.chatId), Share(session, rows));
  }

  /** The lines carry the group keys, position for position. */
  lemma BillLinesKeys(groups: seq<Group<string, real>>, share: real)
    ensures var lines := BillLines(groups, share);
      && (DistinctKeys(groups) ==> forall i, j :: 0 <= i < j < |lines| ==> lines[i].username != lines[j].username)
      && (set i | 0 <= i < |lines| :: lines[i].username) == GroupKeys(groups)
  {
    var lines := BillLines(groups, share);
    assert forall i :: 0 <= i < |lines| ==> lines[i].username == groups[i].key;
  }

  /** Each line's net is the user's priced total in the session, and its total adds both shares. */
  lemma BillLineAmounts(session: Session, rows: seq<Order>)
    ensures var b, n := MakeBill(session, rows), |Usernames(rows)|;
      forall i :: 0 <= i < |b.lines| ==>
        && b.lines[i].net == PricedTotal(UserOrders(rows, session.chatId, b.lines[i].username))
        && b.lines[i].total == b.lines[i].net + NormalizedCharge(session.service, n) + NormalizedCharge(session.tax, n)
  {
    var ours := Select(rows, SessionOf, session.chatId);
    var groups := UserGroups(rows, session.chatId);
    var b := MakeBill(session, rows);
    GroupByFolds(ours, UsernameOf, RowNet, AddNet);
    forall i | 0 <= i < |b.lines| ensures b.lines[i].net == PricedTotal(UserOrders(rows, session.chatId, b.lines[i].username)) {
      AccumulateNet(Select(ours, UsernameOf, groups[i].key));
    }
  }

  /** The user groups of the bill pipeline: one per distinct username of the session. */
  lemma BillUsers(ours: seq<Order>, session: ChatId, rows: seq<Order>)
    requires ours == Select(rows, SessionOf, session)
    ensures var groups := GroupBy(ours, UsernameOf, RowNet, AddNet);
      && DistinctKeys(groups)
      && GroupKeys(groups) == (set o | o in rows && o.session == session :: o.username)
      && |groups| == |set o | o in rows && o.session == session :: o.username|
  {
    var groups := GroupBy(ours, UsernameOf, RowNet, AddNet);
    GroupByKeys(ours, UsernameOf, RowNet, AddNet);
    GroupCount(groups);
    SelectKeys(rows, SessionOf, session, UsernameOf);
    assert (set o | o in rows && SessionOf(o) == session :: UsernameOf(o)) == (set o | o in rows && o.session == session :: o.username);
  }

  /** `share` added up `k` times. */
  function Shares(k: nat, share: real): real {
    if k == 0 then 0.0 else Shares(k - 1, share) + share
  }

  lemma {:induction false} SharesProduct(k: nat, share: real)
    ensures Shares(k, share) == k as real * share
  {
    if k > 0 {
      SharesProduct(k - 1, share);
    }
  }

  /** Extras over lines that all carry the same share add up to that share once per line. */
  lemma {:induction false} ExtrasEqualShares(lines: seq<BillLine>, share: real)
    requires forall i :: 0 <= i < |lines| ==> lines[i].total == lines[i].net + share
    ensures Extras(lines) == Shares(|lines|, share)
  {
    if lines != [] {
      ExtrasEqualShares(lines[..|lines| - 1], share);
    }
  }

  /**
   * The split of service and tax: the session's users number at most N,
   * so the bill collects at most service + tax beyond the orders (for the
   * non-negative charges the handlers store), and exactly service + tax
   * when every user of the collection has an order in this session.
   */
  lemma ChargesSplit(session: Session, rows: seq<Order>)
    requires session.service >= 0.0 && session.tax >= 0.0
    ensures |MakeBill(session, rows).lines| <= |Usernames(rows)|
    ensures Extras(MakeBill(session, rows).lines) ==
      Shares(|MakeBill(session, rows).lines|, NormalizedCharge(session.service, |Usernames(rows)|) + NormalizedCharge(session.tax, |Usernames(rows)|))
    ensures Extras(MakeBill(session, rows).lines) <= session.service + session.tax
    ensures |MakeBill(session, rows).lines| == |Usernames(rows)| > 0 ==> Extras(MakeBill(session, rows).lines) == session.service + session.tax
  {
    BillSize(session, rows);
    BillExtras(session, rows);
    ShareBound(|MakeBill(session, rows).lines|, |Usernames(rows)|, session.service, session.tax);
  }

  /** The session's users are among the users of the whole collection. */
  lemma BillSize(session: Session, rows: seq<Order>)
    ensures |MakeBill(session, rows).lines| <= |Usernames(rows)|
  {
    var sessionUsers := set o | o in rows && o.session == session.chatId :: o.username;
    BillUsers(Select(rows, SessionOf, session.chatId), session.chatId, rows);
    assert sessionUsers <= Usernames(rows);
    SubsetCard(sessionUsers, Usernames(rows));
  }

  /** Each line carries the same share of service and tax. */
  lemma BillExtras(session: Session, rows: seq<Order>)
    ensures Extras(MakeBill(session, rows).lines) ==
      Shares(|MakeBill(session, rows).lines|, NormalizedCharge(session.service, |Usernames(rows)|) + NormalizedCharge(session.tax, |Usernames(rows)|))
  {
    ExtrasEqualShares(MakeBill(session, rows).lines, Share(session, rows));
  }

  /** At most N equal shares of non-negative charges add up to at most the charges, and N shares to exactly them. */
  lemma ShareBound(k: nat, n: nat, service: real, tax: real)
    requires k <= n && service >= 0.0 && tax >= 0.0
    ensures Shares(k, NormalizedCharge(service, n) + NormalizedCharge(tax, n)) <= service + tax
    ensures 0 < k == n ==> Shares(k, NormalizedCharge(service, n) + NormalizedCharge(tax, n)) == service + tax
  {
    var ns, nt := NormalizedCharge(service, n), NormalizedCharge(tax, n);
    SharesProduct(k, ns + nt);
    NormalizedChargeSplits(service, n);
    NormalizedChargeSplits(tax, n);
    if n > 0 {
      assert ns * n as real == service && nt * n as real == tax;
      assert ns >= 0.0 && nt >= 0.0;
      assert n as real * (ns + nt) == service + tax;
      assert k as real * (ns + nt) <= n as real * (ns + nt);
    }
  }

  lemma SubsetCard<K>(a: set<K>, b: set<K>)
    requires a <= b
    ensures |a| <= |b|
  {
    assert b == a + (b - a);
  }
}
