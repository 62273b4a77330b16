/**
 * An in-memory stand-in for the two DynamoDB tables the handler uses and for
 * the two calls it makes on them: `get_item` on the availability table and
 * `transact_write_items` across both tables.
 */
module DynamoDb {
  import opened Optional

  /** An attribute value: a string (`S`) or a number (`N`, held as its text). */
  datatype AttrValue = S(s: string) | N(n: string)

  /** An availability item: attribute name to value. Its key attribute is `date`. */
  type Item = map<string, AttrValue>

  /** The availability table, keyed by date text. */
  type AvailTable = map<string, Item>

  /** A booking item as the handler writes it; every attribute is a string or a list of strings. */
  datatype BookingItem = BookingItem(
    bookingID: string,
    guestName: string,
    checkInDate: string,
    numberofNights: string,
    roomType: string,
    stayDates: seq<string>)

  /** The booking table, keyed by booking id. */
  type BookingTable = map<string, BookingItem>

  datatype Tables = Tables(avail: AvailTable, bookings: BookingTable)

  /** One action of a write transaction. */
  datatype TxOp =
    /** `SET #attr = :new` on item `date`, conditioned on `#attr = :old` with `:old` the string `expected`. */
    | Update(date: string, attr: string, expected: string, newValue: string)
    /** Insert `item` into the booking table, conditioned on `attribute_not_exists(bookingID)`. */
    | Put(item: BookingItem)

  /** The item an action names: DynamoDB refuses a transaction that names one item twice. */
  datatype Target = AvailKey(date: string) | BookingKey(id: string)

  datatype TxResult = Committed | ClientError(code: string)

  const TransactionCanceled := "TransactionCanceledException"
  const ValidationError := "ValidationException"
  /** The most actions one TransactWriteItems call may carry. */
  const MaxActions := 100

  function TargetOf(op: TxOp): (k: Target)
  {
    match op
    case Update(date, _, _, _) => AvailKey(date)
    case Put(item) => BookingKey(item.bookingID)
  }

  predicate DistinctTargets(tx: seq<TxOp>)
  {
    forall i, j :: 0 <= i < j < |tx| ==> TargetOf(tx[i]) != TargetOf(tx[j])
  }

  /** The value of attribute `a` of item `d`, if both exist. */
  function Cell(avail: AvailTable, d: string, a: string): (v: Option<AttrValue>)
  {
    if d in avail && a in avail[d] then Some(avail[d][a]) else None
  }

  /** The condition of one action, evaluated against the tables as they stand. */
  predicate ConditionHolds(t: Tables, op: TxOp)
  {
    match op
    case Update(date, attr, expected, _) => Cell(t.avail, date, attr) == Some(S(expected))
    case Put(item) => item.bookingID !in t.bookings
  }

  predicate AllConditionsHold(t: Tables, tx: seq<TxOp>)
  {
    forall i :: 0 <= i < |tx| ==> ConditionHolds(t, tx[i])
  }

  /** The effect of one action. An update on an absent item creates it, as UpdateItem does. */
  function Apply(t: Tables, op: TxOp): (t': Tables)
  {
    match op
    case Update(date, attr, _, newValue) =>
      var item := if date in t.avail then t.avail[date] else map["date" := S(date)];
      t.(avail := t.avail[date := item[attr := S(newValue)]])
    case Put(item) =>
      t.(bookings := t.bookings[item.bookingID := item])
  }

  /** The actions of `tx` applied in order. */
  function ApplyAll(t: Tables, tx: seq<TxOp>): (t': Tables)
  {
    if tx == [] then t else Apply(ApplyAll(t, tx[..|tx| - 1]), tx[|tx| - 1])
  }

  /**
   * TransactWriteItems: a ClientError the service returns on its own
   * (throttling, a conflict with another in-flight transaction) ends the call
   * with its code; a malformed request is a ValidationException; if any
   * condition fails the whole transaction is cancelled; otherwise every
   * action is applied. The tables change only on commit.
   */
  function TransactWriteItems(t: Tables, tx: seq<TxOp>, fault: Option<string>): (r: (TxResult, Tables))
    ensures r.0 != Committed ==> r.1 == t
    ensures r.0 == Committed ==> AllConditionsHold(t, tx) && DistinctTargets(tx)
    ensures r.0 == Committed ==> r.1 == ApplyAll(t, tx)
    ensures fault.Some? ==> r.0 == ClientError(fault.value)
    ensures fault.None? && !(0 < |tx| <= MaxActions && DistinctTargets(tx)) ==> r.0 == ClientError(ValidationError)
    ensures fault.None? && 0 < |tx| <= MaxActions && DistinctTargets(tx) && !AllConditionsHold(t, tx)
            ==> r.0 == ClientError(TransactionCanceled)
    ensures fault.None? && 0 < |tx| <= MaxActions && DistinctTargets(tx) && AllConditionsHold(t, tx)
            ==> r.0 == Committed
  {
    if fault.Some? then (ClientError(fault.value), t)
    else if |tx| == 0 || |tx| > MaxActions || !DistinctTargets(tx) then (ClientError(ValidationError), t)
    else if !AllConditionsHold(t, tx) then (ClientError(TransactionCanceled), t)
    else (Committed, ApplyAll(t, tx))
  }

  /**
   * With no item named twice, a committed update leaves its cell holding the
   * new value, and a cell no update names keeps its value.
   */
  lemma {:induction false} ApplyAllCell(t: Tables, tx: seq<TxOp>, d: string, a: string)
    requires DistinctTargets(tx)
    ensures forall i :: 0 <= i < |tx| && tx[i].Update? && tx[i].date == d && tx[i].attr == a ==>
              Cell(ApplyAll(t, tx).avail, d, a) == Some(S(tx[i].newValue))
    ensures d in t.avail ==> d in ApplyAll(t, tx).avail
    ensures d in t.avail && (forall i :: 0 <= i < |tx| && tx[i].Update? ==> tx[i].date != d || tx[i].attr != a) ==>
              Cell(ApplyAll(t, tx).avail, d, a) == Cell(t.avail, d, a)
  {
    if tx != [] {
      var init := tx[..|tx| - 1];
      assert DistinctTargets(init) by {
        forall i, j | 0 <= i < j < |init| ensures TargetOf(init[i]) != TargetOf(init[j]) {
          assert init[i] == tx[i] && init[j] == tx[j];
        }
      }
      ApplyAllCell(t, init, d, a);
      var last := tx[|tx| - 1];
      forall i | 0 <= i < |init| && init[i].Update? && init[i].date == d
        ensures !(last.Update? && last.date == d)
      {
        assert TargetOf(tx[i]) != TargetOf(tx[|tx| - 1]);
      }
      forall i | 0 <= i < |tx| && tx[i].Update? && tx[i].date == d && tx[i].attr == a
        ensures Cell(ApplyAll(t, tx).avail, d, a) == Some(S(tx[i].newValue))
      {
        if i < |tx| - 1 {
          assert init[i] == tx[i];
        }
      }
      if d in t.avail && forall i :: 0 <= i < |tx| && tx[i].Update? ==> tx[i].date != d || tx[i].attr != a {
        assert !(last.Update? && last.date == d && last.attr == a);
        forall i | 0 <= i < |init| && init[i].Update?
          ensures init[i].date != d || init[i].attr != a
        {
          assert init[i] == tx[i];
        }
      }
    }
  }

  /** The availability table gains exactly the items some update names and did not hold before. */
  lemma {:induction false} ApplyAllKeys(t: Tables, tx: seq<TxOp>)
    ensures forall d :: d in ApplyAll(t, tx).avail <==>
              d in t.avail || exists i :: 0 <= i < |tx| && tx[i].Update? && tx[i].date == d
  {
    if tx != [] {
      var init := tx[..|tx| - 1];
      ApplyAllKeys(t, init);
      forall d | d in ApplyAll(t, tx).avail
        ensures d in t.avail || exists i :: 0 <= i < |tx| && tx[i].Update? && tx[i].date == d
      {
        if d !in ApplyAll(t, init).avail {
          assert tx[|tx| - 1].Update? && tx[|tx| - 1].date == d;
        } else if d !in t.avail {
          var i :| 0 <= i < |init| && init[i].Update? && init[i].date == d;
          assert tx[i] == init[i];
        }
      }
      forall d | exists i :: 0 <= i < |tx| && tx[i].Update? && tx[i].date == d
        ensures d in ApplyAll(t, tx).avail
      {
        var i :| 0 <= i < |tx| && tx[i].Update? && tx[i].date == d;
        if i < |tx| - 1 {
          assert init[i] == tx[i];
        }
      }
    }
  }

  /** Updates never touch the booking table; a final put adds exactly its item. */
  lemma {:induction false} ApplyAllBookings(t: Tables, updates: seq<TxOp>, item: BookingItem)
    requires forall i :: 0 <= i < |updates| ==> updates[i].Update?
    ensures ApplyAll(t, updates).bookings == t.bookings
    ensures ApplyAll(t, updates + [Put(item)]).bookings == t.bookings[item.bookingID := item]
  {
    if updates != [] {
      ApplyAllBookings(t, updates[..|updates| - 1], item);
    }
    assert (updates + [Put(item)])[..|updates|] == updates;
  }

  /** The two tables, and the calls the handler makes on them. */
  class Store {
    var avail: AvailTable
    var bookings: BookingTable

    constructor (avail0: AvailTable, bookings0: BookingTable)
      ensures avail == avail0 && bookings == bookings0
    {
      avail := avail0;
      bookings := bookings0;
    }

    function State(): (t: Tables)
      reads this
    {
      Tables(avail, bookings)
    }

    /** `get_item` on the availability table: the item stored under `date`, if any. */
    method GetItem(date: string) returns (r: Option<Item>)
      ensures r.Some? <==> date in avail
      ensures r.Some? ==> r.value == avail[date]
    {
      if date in avail {
        r := Some(avail[date]);
      } else {
        r := None;
      }
    }

    /**
     * `transact_write_items`: validates the request, checks every condition
     * against the tables as they stand, and only then applies every action.
     */
    method TransactWrite(tx: seq<TxOp>, fault: Option<string>) returns (r: TxResult)
      modifies this
      ensures (r, State()) == TransactWriteItems(old(State()), tx, fault)
    {
      if fault.Some? {
        return ClientError(fault.value);
      }
      if |tx| == 0 || |tx| > MaxActions {
        return ClientError(ValidationError);
      }
      var seen: set<Target> := {};
      var i := 0;
      while i < |tx|
        invariant 0 <= i <= |tx|
        invariant DistinctTargets(tx[..i])
        invariant seen == set j | 0 <= j < i :: TargetOf(tx[j])
      {
        var target := TargetOf(tx[i]);
        if target in seen {
          var j :| 0 <= j < i && TargetOf(tx[j]) == target;
          assert !DistinctTargets(tx);
          return ClientError(ValidationError);
        }
        seen := seen + {target};
        i := i + 1;
        assert forall j :: 0 <= j < i ==> tx[..i][j] == tx[j];
      }
      assert tx[..|tx|] == tx;
      i := 0;
      while i < |tx|
        invariant 0 <= i <= |tx|
        invariant forall j :: 0 <= j < i ==> ConditionHolds(State(), tx[j])
      {
        if !ConditionHolds(State(), tx[i]) {
          return ClientError(TransactionCanceled);
        }
        i := i + 1;
      }
      ghost var before := State();
      i := 0;
      while i < |tx|
        invariant 0 <= i <= |tx|
        invariant State() == ApplyAll(before, tx[..i])
      {
        assert tx[..i + 1][..i] == tx[..i];
        match tx[i] {
          case Update(date, attr, _, newValue) =>
            var item := if date in avail then avail[date] else map["date" := S(date)];
            avail := avail[date := item[attr := S(newValue)]];
          case Put(item) =>
            bookings := bookings[item.bookingID := item];
        }
        i := i + 1;
      }
      assert tx[..|tx|] == tx;
      return Committed;
    }
  }
}
