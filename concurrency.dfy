/**
 * Several invocations of lambda_handler running at once. Each one reads the
 * availability table, then commits a transaction whose every decrement is
 * conditioned on the exact count it read. Here the reads of one invocation
 * may come from an older state of the tables than the one its transaction
 * meets, and transactions from any number of invocations are committed in
 * any order.
 */
module Concurrency {
  import opened Optional
  import opened Json
  import opened Decimal
  import opened DynamoDb
  import opened RoomBooking
  import opened RoomBookingProofs
  import opened HandlerProofs

  // ---------------------------------------------------------------------
  // A plan meeting newer tables
  // ---------------------------------------------------------------------

  /** The stay-date cells of `rt` hold in `now` what they held in `snap`. */
  ghost predicate SameStayCells(snap: AvailTable, now: AvailTable, dates: seq<string>, rt: string)
  {
    forall i :: 0 <= i < |dates| ==> Cell(now, dates[i], rt) == Cell(snap, dates[i], rt)
  }

  /**
   * The conditions of a planned transaction, met against the tables `now`,
   * hold exactly when every stay-date count still reads as it did when the
   * plan was made and the booking id is still free.
   */
  lemma PlannedConditionsAgainst(snap: AvailTable, now: Tables, plan: Plan, bookingId: string)
    requires plan.request.guestName.JStr?
    requires DecrementsAsRead(snap, plan.stayDates, RoomTypeName(plan.request.roomType), plan.updates)
    ensures AllConditionsHold(now, Transaction(plan, bookingId)) <==>
      SameStayCells(snap, now.avail, plan.stayDates, RoomTypeName(plan.request.roomType)) && bookingId !in now.bookings
  {
    var rt := RoomTypeName(plan.request.roomType);
    var tx := Transaction(plan, bookingId);
    assert |tx| == |plan.stayDates| + 1;
    forall i | 0 <= i < |plan.stayDates|
      ensures ConditionHolds(now, tx[i]) <==> Cell(now.avail, plan.stayDates[i], rt) == Cell(snap, plan.stayDates[i], rt)
    {
      assert tx[i] == plan.updates[i];
    }
    assert ConditionHolds(now, tx[|tx| - 1]) <==> bookingId !in now.bookings;
    if AllConditionsHold(now, tx) {
      forall i | 0 <= i < |plan.stayDates|
        ensures Cell(now.avail, plan.stayDates[i], rt) == Cell(snap, plan.stayDates[i], rt)
      {
        assert ConditionHolds(now, tx[i]);
      }
    }
  }

  /** The same at the level of one commit with no service error. */
  lemma PlanCommit(snap: AvailTable, now: Tables, plan: Plan, bookingId: string)
    requires plan.request.guestName.JStr?
    requires DecrementsAsRead(snap, plan.stayDates, RoomTypeName(plan.request.roomType), plan.updates)
    requires |Transaction(plan, bookingId)| <= MaxActions && DistinctTargets(Transaction(plan, bookingId))
    ensures var (o, t') := Commit(now, plan, bookingId, None);
      && (o.Response? && o.status == 200 <==>
            SameStayCells(snap, now.avail, plan.stayDates, RoomTypeName(plan.request.roomType))
            && bookingId !in now.bookings)
      && (!(o.Response? && o.status == 200) ==> o == Response(409, Error(MsgChanged)) && t' == now)
  {
    PlannedConditionsAgainst(snap, now, plan, bookingId);
  }

  /**
   * A booking planned on the tables `snap` and committed, with no service
   * error, against the tables `now`: it is confirmed exactly when no
   * stay-date count it read has changed since and its booking id is still
   * free. Otherwise the transaction is cancelled, the guest gets the 409
   * asking for a retry and neither table changes.
   */
  lemma SnapshotCommit(snap: Tables, now: Tables, event: map<string, Json>, bookingId: string)
    requires PlanBooking(snap.avail, event).Next?
    requires PlanBooking(snap.avail, event).value.request.guestName.JStr?
    ensures var plan := PlanBooking(snap.avail, event).value;
      var (o, t') := Commit(now, plan, bookingId, None);
      && (o.Response? && o.status == 200 <==>
            SameStayCells(snap.avail, now.avail, plan.stayDates, RoomTypeName(plan.request.roomType))
            && bookingId !in now.bookings)
      && (!(o.Response? && o.status == 200) ==> o == Response(409, Error(MsgChanged)) && t' == now)
  {
    var plan := PlanBooking(snap.avail, event).value;
    PlanShape(snap.avail, event);
    TransactionShape(snap.avail, event, bookingId);
    PlanCommit(snap.avail, now, plan, bookingId);
  }

  // ---------------------------------------------------------------------
  // No overbooking under any interleaving
  // ---------------------------------------------------------------------

  /** Some update of `tx` writes attribute `a` of item `d`. */
  ghost predicate Touches(tx: seq<TxOp>, d: string, a: string)
  {
    exists i :: 0 <= i < |tx| && tx[i].Update? && tx[i].date == d && tx[i].attr == a
  }

  /**
   * Every update of `tx` on cell (d, a) expects a count of at least one and
   * writes that count minus one.
   */
  ghost predicate LowersByOne(tx: seq<TxOp>, d: string, a: string)
  {
    forall i :: 0 <= i < |tx| && tx[i].Update? && tx[i].date == d && tx[i].attr == a ==>
      && ParseInt(tx[i].expected).Some?
      && ParseInt(tx[i].expected).value >= 1
      && tx[i].newValue == IntToString(ParseInt(tx[i].expected).value - 1)
  }

  /** One transaction sent to DynamoDB, with the service error it meets, if any. */
  datatype Attempt = Attempt(tx: seq<TxOp>, fault: Option<string>)

  /** The tables after one attempt. */
  function After(t: Tables, at: Attempt): (t': Tables)
  {
    TransactWriteItems(t, at.tx, at.fault).1
  }

  /** The attempt committed and wrote cell (d, a). */
  ghost predicate Took(t: Tables, at: Attempt, d: string, a: string)
  {
    TransactWriteItems(t, at.tx, at.fault).0 == Committed && Touches(at.tx, d, a)
  }

  /** The tables after the attempts have been sent one after another. */
  function RunAll(t: Tables, attempts: seq<Attempt>): (t': Tables)
  {
    if attempts == [] then t
    else After(RunAll(t, attempts[..|attempts| - 1]), attempts[|attempts| - 1])
  }

  /** How many of the attempts committed and took a room on cell (d, a). */
  ghost function Wins(t: Tables, attempts: seq<Attempt>, d: string, a: string): (n: nat)
  {
    if attempts == [] then 0
    else
      var init := attempts[..|attempts| - 1];
      Wins(t, init, d, a) + (if Took(RunAll(t, init), attempts[|attempts| - 1], d, a) then 1 else 0)
  }

  /** Applying a transaction whose conditions all hold, one cell at a time. */
  lemma AppliedCount(t: Tables, tx: seq<TxOp>, d: string, a: string, c: int)
    requires DistinctTargets(tx) && AllConditionsHold(t, tx)
    requires LowersByOne(tx, d, a)
    requires CountAt(t.avail, d, a) == Some(c)
    ensures Touches(tx, d, a) ==> c >= 1 && CountAt(ApplyAll(t, tx).avail, d, a) == Some(c - 1)
    ensures !Touches(tx, d, a) ==> CountAt(ApplyAll(t, tx).avail, d, a) == Some(c)
  {
    if Touches(tx, d, a) {
      var i :| 0 <= i < |tx| && tx[i].Update? && tx[i].date == d && tx[i].attr == a;
      WrittenCell(t, tx, d, a, i);
      assert ConditionHolds(t, tx[i]);
      ParseIntToString(c - 1);
    } else {
      ApplyAllCell(t, tx, d, a);
    }
  }

  /** The cell an update writes holds that update's new value after the commit. */
  lemma WrittenCell(t: Tables, tx: seq<TxOp>, d: string, a: string, i: int)
    requires DistinctTargets(tx)
    requires 0 <= i < |tx| && tx[i].Update? && tx[i].date == d && tx[i].attr == a
    ensures Cell(ApplyAll(t, tx).avail, d, a) == Some(S(tx[i].newValue))
  {
    ApplyAllCell(t, tx, d, a);
  }

  /**
   * One attempt that keeps to the decrement rule: if it commits and writes
   * the cell, the count was at least one and drops by exactly one; otherwise
   * the count is as it was.
   */
  lemma OneAttempt(t: Tables, at: Attempt, d: string, a: string, c: int)
    requires LowersByOne(at.tx, d, a)
    requires CountAt(t.avail, d, a) == Some(c)
    ensures Took(t, at, d, a) ==> c >= 1 && CountAt(After(t, at).avail, d, a) == Some(c - 1)
    ensures !Took(t, at, d, a) ==> CountAt(After(t, at).avail, d, a) == Some(c)
  {
    if TransactWriteItems(t, at.tx, at.fault).0 == Committed {
      AppliedCount(t, at.tx, d, a, c);
    }
  }

  /**
   * No overbooking. Start from a cell holding count n and send any sequence
   * of transactions that keep to the decrement rule, each meeting whatever
   * faults it meets: the cell ends holding n minus the number of committed
   * transactions that wrote it, and that number never exceeds n (nor 0 when
   * n is negative). So the rooms handed out on one date for one room type
   * are never more than the count stored before the first of them.
   */
  lemma {:induction false} NoOverbooking(t: Tables, attempts: seq<Attempt>, d: string, a: string, n: int)
    requires CountAt(t.avail, d, a) == Some(n)
    requires forall k :: 0 <= k < |attempts| ==> LowersByOne(attempts[k].tx, d, a)
    ensures CountAt(RunAll(t, attempts).avail, d, a) == Some(n - Wins(t, attempts, d, a))
    ensures Wins(t, attempts, d, a) <= (if n < 0 then 0 else n)
  {
    if attempts != [] {
      var init := attempts[..|attempts| - 1];
      var last := attempts[|attempts| - 1];
      forall k | 0 <= k < |init|
        ensures LowersByOne(init[k].tx, d, a)
      {
        assert init[k] == attempts[k];
      }
      NoOverbooking(t, init, d, a, n);
      NoOverbookingStep(t, attempts, d, a, n);
    }
  }

  /** The inductive step of NoOverbooking: one more attempt after `init`. */
  lemma NoOverbookingStep(t: Tables, attempts: seq<Attempt>, d: string, a: string, n: int)
    requires attempts != []
    requires LowersByOne(attempts[|attempts| - 1].tx, d, a)
    requires CountAt(RunAll(t, attempts[..|attempts| - 1]).avail, d, a) == Some(n - Wins(t, attempts[..|attempts| - 1], d, a))
    requires Wins(t, attempts[..|attempts| - 1], d, a) <= (if n < 0 then 0 else n)
    ensures CountAt(RunAll(t, attempts).avail, d, a) == Some(n - Wins(t, attempts, d, a))
    ensures Wins(t, attempts, d, a) <= (if n < 0 then 0 else n)
  {
    var init := attempts[..|attempts| - 1];
    var last := attempts[|attempts| - 1];
    var mid := RunAll(t, init);
    var w := Wins(t, init, d, a);
    OneAttempt(mid, last, d, a, n - w);
  }

  /** Decrements as read, followed by the booking put, keep to the decrement rule. */
  lemma DecrementsLowerByOne(avail: AvailTable, dates: seq<string>, rt: string, updates: seq<TxOp>, put: TxOp,
                             d: string, a: string)
    requires DecrementsAsRead(avail, dates, rt, updates)
    requires put.Put?
    ensures LowersByOne(updates + [put], d, a)
  {
    var tx := updates + [put];
    forall i | 0 <= i < |tx| && tx[i].Update? && tx[i].date == d && tx[i].attr == a
      ensures ParseInt(tx[i].expected).Some? && ParseInt(tx[i].expected).value >= 1
      ensures tx[i].newValue == IntToString(ParseInt(tx[i].expected).value - 1)
    {
      assert tx[i] == updates[i];
    }
  }

  /**
   * Every transaction the handler builds keeps to the decrement rule on
   * every cell, whatever tables it was planned on.
   */
  lemma HandlerLowersByOne(snap: AvailTable, event: map<string, Json>, bookingId: string, d: string, a: string)
    requires PlanBooking(snap, event).Next?
    requires PlanBooking(snap, event).value.request.guestName.JStr?
    ensures LowersByOne(Transaction(PlanBooking(snap, event).value, bookingId), d, a)
  {
    var plan := PlanBooking(snap, event).value;
    PlanShape(snap, event);
    DecrementsLowerByOne(snap, plan.stayDates, RoomTypeName(plan.request.roomType), plan.updates,
                         Put(NewBookingItem(bookingId, plan.request.guestName.s, plan.request, plan.stayDates)), d, a);
  }

  /**
   * Competing bookings: invocations planned on any states of the tables
   * (each its own snapshot), whose transactions reach DynamoDB in any order
   * and meet any faults, confirm on a cell holding n rooms at most n times.
   */
  lemma CompetingBookings(t: Tables, snaps: seq<AvailTable>, events: seq<map<string, Json>>,
                          ids: seq<string>, faults: seq<Option<string>>, attempts: seq<Attempt>,
                          d: string, a: string, n: int)
    requires |snaps| == |events| == |ids| == |faults| == |attempts|
    requires forall k :: 0 <= k < |attempts| ==>
      && PlanBooking(snaps[k], events[k]).Next?
      && PlanBooking(snaps[k], events[k]).value.request.guestName.JStr?
      && attempts[k] == Attempt(Transaction(PlanBooking(snaps[k], events[k]).value, ids[k]), faults[k])
    requires CountAt(t.avail, d, a) == Some(n)
    ensures CountAt(RunAll(t, attempts).avail, d, a) == Some(n - Wins(t, attempts, d, a))
    ensures Wins(t, attempts, d, a) <= (if n < 0 then 0 else n)
  {
    forall k | 0 <= k < |attempts|
      ensures LowersByOne(attempts[k].tx, d, a)
    {
      HandlerLowersByOne(snaps[k], events[k], ids[k], d, a);
    }
    NoOverbooking(t, attempts, d, a, n);
  }

  /** The first booking to commit takes the last room: the count reads 0 and its cell has changed. */
  lemma FirstTakesLast(t: Tables, p1: Plan, id1: string, i: int)
    requires p1.request.guestName.JStr?
    requires DecrementsAsRead(t.avail, p1.stayDates, RoomTypeName(p1.request.roomType), p1.updates)
    requires 0 <= i < |p1.stayDates|
    requires CountAt(t.avail, p1.stayDates[i], RoomTypeName(p1.request.roomType)) == Some(1)
    requires Booked(Commit(t, p1, id1, None).0)
    ensures var t1 := Commit(t, p1, id1, None).1;
      var d := p1.stayDates[i];
      var rt := RoomTypeName(p1.request.roomType);
      && CountAt(t1.avail, d, rt) == Some(0)
      && Cell(t1.avail, d, rt) != Cell(t.avail, d, rt)
      && Classify(t1.avail, d, rt) == Low(0)
  {
    CommitEffect(t, p1, id1, None);
  }

  /** LastUnit for two plans made on the tables `t`. */
  lemma LastUnitPlans(t: Tables, p1: Plan, p2: Plan, id1: string, id2: string, i: int, j: int)
    requires p1.request.guestName.JStr? && p2.request.guestName.JStr?
    requires DecrementsAsRead(t.avail, p1.stayDates, RoomTypeName(p1.request.roomType), p1.updates)
    requires DecrementsAsRead(t.avail, p2.stayDates, RoomTypeName(p2.request.roomType), p2.updates)
    requires |Transaction(p2, id2)| <= MaxActions && DistinctTargets(Transaction(p2, id2))
    requires 0 <= i < |p1.stayDates| && 0 <= j < |p2.stayDates|
    requires p1.stayDates[i] == p2.stayDates[j] && p1.request.roomType == p2.request.roomType
    requires CountAt(t.avail, p1.stayDates[i], RoomTypeName(p1.request.roomType)) == Some(1)
    requires Booked(Commit(t, p1, id1, None).0)
    ensures var t1 := Commit(t, p1, id1, None).1;
      var d := p1.stayDates[i];
      var rt := RoomTypeName(p1.request.roomType);
      && Commit(t1, p2, id2, None) == (Response(409, Error(MsgChanged)), t1)
      && CountAt(t1.avail, d, rt) == Some(0)
      && Classify(t1.avail, d, rt) == Low(0)
  {
    FirstTakesLast(t, p1, id1, i);
    var t1 := Commit(t, p1, id1, None).1;
    assert !SameStayCells(t.avail, t1.avail, p2.stayDates, RoomTypeName(p2.request.roomType));
    PlanCommit(t.avail, t1, p2, id2);
  }

  /** Every one of `dates` has a record for `rt` that reads as an integer. */
  ghost predicate AllReadable(avail: AvailTable, dates: seq<string>, rt: string)
  {
    forall k :: 0 <= k < |dates| ==> Classify(avail, dates[k], rt) != NoRecord && Classify(avail, dates[k], rt) != Unreadable
  }

  /** A cell that held an integer still holds one after a commit that lowered the cells of `dates1` by one. */
  lemma ReadableAfter(before: AvailTable, after: AvailTable, dates1: seq<string>, rt1: string,
                      d: string, rt: string, s: string)
    requires DecrementedByOne(before, after, dates1, rt1) && UnchangedElsewhere(before, after, dates1, rt1)
    requires Cell(before, d, rt) == Some(S(s)) && ParseInt(s).Some?
    ensures Classify(after, d, rt) != NoRecord && Classify(after, d, rt) != Unreadable
  {
    if d in dates1 && rt == rt1 {
      var i :| 0 <= i < |dates1| && dates1[i] == d;
      assert CountAt(after, dates1[i], rt1).Some?;
    } else {
      assert Cell(after, d, rt) == Cell(before, d, rt);
    }
  }

  /**
   * A confirmed commit leaves every date some other plan read as in stock
   * with a readable count: a decremented cell holds its count minus one, and
   * any other cell keeps its text.
   */
  lemma StillReadable(t: Tables, p1: Plan, id1: string, dates: seq<string>, rt: string, updates: seq<TxOp>)
    requires p1.request.guestName.JStr?
    requires DecrementsAsRead(t.avail, p1.stayDates, RoomTypeName(p1.request.roomType), p1.updates)
    requires Booked(Commit(t, p1, id1, None).0)
    requires DecrementsAsRead(t.avail, dates, rt, updates)
    ensures AllReadable(Commit(t, p1, id1, None).1.avail, dates, rt)
  {
    CommitEffect(t, p1, id1, None);
    var t1 := Commit(t, p1, id1, None).1;
    var rt1 := RoomTypeName(p1.request.roomType);
    forall k | 0 <= k < |dates|
      ensures Classify(t1.avail, dates[k], rt) != NoRecord && Classify(t1.avail, dates[k], rt) != Unreadable
    {
      ReadableAfter(t.avail, t1.avail, p1.stayDates, rt1, dates[k], rt, updates[k].expected);
    }
  }

  /**
   * A booking whose stay dates all have readable records, one of them
   * reading 0, is turned away by the pre-check: the 404 listing that date
   * with its count 0, and no table changes.
   */
  lemma RetryInsufficient(t: Tables, event: map<string, Json>, p: Plan, id: string, fault: Option<string>, j: int)
    requires RequestOf(event) == Next(p.request)
    requires DateSeq(p.request.checkInDate, p.request.nights) == Next(p.stayDates)
    requires AllReadable(t.avail, p.stayDates, RoomTypeName(p.request.roomType))
    requires 0 <= j < |p.stayDates| && Classify(t.avail, p.stayDates[j], RoomTypeName(p.request.roomType)) == Low(0)
    ensures var (o, t') := Handle(t, event, id, fault);
      && t' == t
      && o.Response? && o.status == 404 && o.body.Insufficient? && o.body.error == MsgInsufficient
      && Shortfall(p.stayDates[j], 0) in o.body.details
  {
    var rt := RoomTypeName(p.request.roomType);
    assert !SomeUnreadable(t.avail, p.stayDates, rt);
    assert !SomeMissing(t.avail, p.stayDates, rt);
    assert SomeLow(t.avail, p.stayDates, rt);
    PreCheckOutcome(t, event, id, fault, p.request, p.stayDates);
  }

  /**
   * The last room. Two bookings are planned on the same tables, and both
   * want a date and room type whose count is 1. Once the first is confirmed,
   * the second, committed afterwards with no service error, is cancelled with
   * the 409 asking for a retry and changes nothing; the count now reads 0, so
   * a retry of the second request, under any booking id and whatever the
   * service returns, is turned away by the pre-check with the 404 that lists the
   * date with its count 0.
   */
  lemma LastUnit(t: Tables, e1: map<string, Json>, e2: map<string, Json>, p1: Plan, p2: Plan,
                 id1: string, id2: string, i: int, j: int, retryId: string, retryFault: Option<string>)
    requires PlanBooking(t.avail, e1) == Next(p1) && PlanBooking(t.avail, e2) == Next(p2)
    requires p2.request.guestName.JStr?
    requires 0 <= i < |p1.stayDates| && 0 <= j < |p2.stayDates|
    requires p1.stayDates[i] == p2.stayDates[j] && p1.request.roomType == p2.request.roomType
    requires CountAt(t.avail, p1.stayDates[i], RoomTypeName(p1.request.roomType)) == Some(1)
    requires Booked(Handle(t, e1, id1, None).0)
    ensures var t1 := Handle(t, e1, id1, None).1;
      var d := p1.stayDates[i];
      var rt := RoomTypeName(p1.request.roomType);
      var (retry, t2) := Handle(t1, e2, retryId, retryFault);
      && Commit(t1, p2, id2, None) == (Response(409, Error(MsgChanged)), t1)
      && CountAt(t1.avail, d, rt) == Some(0)
      && Classify(t1.avail, d, rt) == Low(0)
      && t2 == t1
      && retry.Response? && retry.status == 404 && retry.body.Insufficient? && retry.body.error == MsgInsufficient
      && Shortfall(d, 0) in retry.body.details
  {
    assert Handle(t, e1, id1, None) == Commit(t, p1, id1, None);
    assert p1.request.guestName.JStr?;
    PlanShape(t.avail, e1);
    PlanShape(t.avail, e2);
    TransactionShape(t.avail, e2, id2);
    LastUnitPlans(t, p1, p2, id1, id2, i, j);
    var t1 := Commit(t, p1, id1, None).1;
    var rt := RoomTypeName(p2.request.roomType);
    StillReadable(t, p1, id1, p2.stayDates, rt, p2.updates);
    RetryInsufficient(t1, e2, p2, retryId, retryFault, j);
  }
}
