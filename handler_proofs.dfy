/**
 * What one whole invocation of lambda_handler does to the tables: the
 * statuses it can end in, that nothing is written unless a booking is
 * confirmed, the exact effect of a confirmed booking, and how the pre-check
 * reports every date it could not book.
 */
module HandlerProofs {
  import opened Optional
  import opened Json
  import opened Decimal
  import opened Calendar
  import opened DynamoDb
  import opened RoomBooking
  import opened RoomBookingProofs

  /** A confirmed booking. */
  predicate Booked(o: Outcome)
  {
    o.Response? && o.status == 200
  }

  /** The statuses and exceptions the handler can end in. */
  predicate KnownOutcome(o: Outcome)
  {
    match o
    case Response(status, _) => status in {200, 400, 404, 409, 500}
    case Raised(e) => e in {"AttributeError", "TypeError", "ValueError", "OverflowError", "ParamValidationError"}
  }

  /**
   * Each of `dates` held a count of at least one for `rt` in `before`, and
   * `after` stores that count minus one, as a decimal string.
   */
  ghost predicate DecrementedByOne(before: AvailTable, after: AvailTable, dates: seq<string>, rt: string)
  {
    forall i :: 0 <= i < |dates| ==>
      && CountAt(before, dates[i], rt).Some?
      && CountAt(before, dates[i], rt).value >= 1
      && Cell(after, dates[i], rt) == Some(S(IntToString(CountAt(before, dates[i], rt).value - 1)))
      && CountAt(after, dates[i], rt) == Some(CountAt(before, dates[i], rt).value - 1)
  }

  /** Every cell other than the (date, rt) cells of `dates` is the same, and so is the set of dates. */
  ghost predicate UnchangedElsewhere(before: AvailTable, after: AvailTable, dates: seq<string>, rt: string)
  {
    && (forall d, a :: d in before && (d !in dates || a != rt) ==> Cell(after, d, a) == Cell(before, d, a))
    && (forall d :: d in after <==> d in before)
  }

  /** Every outcome that ends the invocation before the write is one of the error outcomes, never a 200. */
  lemma PlanStopsAreErrors(avail: AvailTable, event: map<string, Json>)
    requires PlanBooking(avail, event).Stop?
    ensures KnownOutcome(PlanBooking(avail, event).outcome)
    ensures !Booked(PlanBooking(avail, event).outcome)
  {
    match RequestOf(event)
    case Stop(o) =>
    case Next(req) =>
      assert PlanBooking(avail, event) == PlanRequest(avail, req);
  }

  /**
   * On the tables it was planned from, every condition of a planned
   * transaction holds except possibly the booking put's, which holds exactly
   * when the booking id is new.
   */
  lemma PlannedConditionsHold(t: Tables, event: map<string, Json>, bookingId: string)
    requires PlanBooking(t.avail, event).Next?
    requires PlanBooking(t.avail, event).value.request.guestName.JStr?
    ensures AllConditionsHold(t, Transaction(PlanBooking(t.avail, event).value, bookingId)) <==> bookingId !in t.bookings
  {
    var plan := PlanBooking(t.avail, event).value;
    PlanShape(t.avail, event);
    TransactionShape(t.avail, event, bookingId);
    var tx := Transaction(plan, bookingId);
    forall i | 0 <= i < |tx| - 1
      ensures ConditionHolds(t, tx[i])
    {
      assert tx[i] == plan.updates[i];
    }
    assert ConditionHolds(t, tx[|tx| - 1]) <==> bookingId !in t.bookings;
  }

  /**
   * The write commits exactly when the handler got as far as writing, the
   * guest name is a string, the service returned no error and the booking id is
   * new; on every other path the tables are unchanged. A cancelled
   * transaction is a 409, any other client error a 500 carrying its code.
   */
  lemma CommitOutcome(t: Tables, event: map<string, Json>, bookingId: string, fault: Option<string>)
    ensures var (o, t') := Handle(t, event, bookingId, fault);
      var planned := PlanBooking(t.avail, event).Next? && PlanBooking(t.avail, event).value.request.guestName.JStr?;
      && KnownOutcome(o)
      && (Booked(o) <==> planned && fault.None? && bookingId !in t.bookings)
      && (!Booked(o) ==> t' == t)
      && (planned && fault.Some? ==>
            o == if fault.value == TransactionCanceled then Response(409, Error(MsgChanged))
                 else Response(500, TxFailure(MsgTxFailed, fault.value)))
      && (planned && fault.None? && bookingId in t.bookings ==> o == Response(409, Error(MsgChanged)))
  {
    match PlanBooking(t.avail, event)
    case Stop(o) =>
      PlanStopsAreErrors(t.avail, event);
    case Next(plan) =>
      if plan.request.guestName.JStr? {
        TransactionShape(t.avail, event, bookingId);
        PlannedConditionsHold(t, event, bookingId);
        PlanCommitOutcome(t, plan, bookingId, fault);
      }
  }

  /** CommitOutcome for one plan whose transaction is well formed and whose decrements all hold. */
  lemma PlanCommitOutcome(t: Tables, plan: Plan, bookingId: string, fault: Option<string>)
    requires plan.request.guestName.JStr?
    requires |Transaction(plan, bookingId)| <= MaxActions && DistinctTargets(Transaction(plan, bookingId))
    requires AllConditionsHold(t, Transaction(plan, bookingId)) <==> bookingId !in t.bookings
    ensures var (o, t') := Commit(t, plan, bookingId, fault);
      && KnownOutcome(o)
      && (Booked(o) <==> fault.None? && bookingId !in t.bookings)
      && (!Booked(o) ==> t' == t)
      && (fault.Some? ==>
            o == if fault.value == TransactionCanceled then Response(409, Error(MsgChanged))
                 else Response(500, TxFailure(MsgTxFailed, fault.value)))
      && (fault.None? && bookingId in t.bookings ==> o == Response(409, Error(MsgChanged)))
  {
  }

  /** Applying decrements as read: each stay date's cell holds its count minus one, as a decimal string. */
  lemma DecrementedCells(t: Tables, dates: seq<string>, rt: string, tx: seq<TxOp>)
    requires |tx| == |dates| + 1
    requires DistinctTargets(tx)
    requires DecrementsAsRead(t.avail, dates, rt, tx[..|dates|])
    ensures DecrementedByOne(t.avail, ApplyAll(t, tx).avail, dates, rt)
  {
    forall i | 0 <= i < |dates|
      ensures && CountAt(t.avail, dates[i], rt).Some?
              && CountAt(t.avail, dates[i], rt).value >= 1
              && Cell(ApplyAll(t, tx).avail, dates[i], rt) == Some(S(IntToString(CountAt(t.avail, dates[i], rt).value - 1)))
              && CountAt(ApplyAll(t, tx).avail, dates[i], rt) == Some(CountAt(t.avail, dates[i], rt).value - 1)
    {
      var op := tx[..|dates|][i];
      assert tx[i] == op;
      ApplyAllCell(t, tx, dates[i], rt);
      ParseIntToString(ParseInt(op.expected).value - 1);
    }
  }

  /** Applying decrements as read, then a put: every cell off the stay dates' room type is unchanged, and no date is added. */
  lemma UntouchedCells(t: Tables, dates: seq<string>, rt: string, tx: seq<TxOp>)
    requires |tx| == |dates| + 1
    requires tx[|dates|].Put?
    requires DistinctTargets(tx)
    requires DecrementsAsRead(t.avail, dates, rt, tx[..|dates|])
    ensures UnchangedElsewhere(t.avail, ApplyAll(t, tx).avail, dates, rt)
  {
    var updates := tx[..|dates|];
    forall d, a | d in t.avail && (d !in dates || a != rt)
      ensures Cell(ApplyAll(t, tx).avail, d, a) == Cell(t.avail, d, a)
    {
      ApplyAllCell(t, tx, d, a);
      forall i | 0 <= i < |tx| && tx[i].Update?
        ensures tx[i].date != d || tx[i].attr != a
      {
        assert tx[i] == updates[i];
      }
    }
    ApplyAllKeys(t, tx);
    forall i | 0 <= i < |tx| && tx[i].Update?
      ensures tx[i].date in t.avail
    {
      assert tx[i] == updates[i];
      assert Cell(t.avail, dates[i], rt).Some?;
    }
    forall d | d in t.avail
      ensures d in ApplyAll(t, tx).avail
    {
      ApplyAllCell(t, tx, d, rt);
    }
  }

  /**
   * A committed write of a plan made on the same tables: the response, the
   * new booking, and the cells it changes and leaves alone.
   */
  lemma CommitEffect(t: Tables, plan: Plan, bookingId: string, fault: Option<string>)
    requires Booked(Commit(t, plan, bookingId, fault).0)
    requires plan.request.guestName.JStr?
    requires DecrementsAsRead(t.avail, plan.stayDates, RoomTypeName(plan.request.roomType), plan.updates)
    ensures var req := plan.request;
      var rt := RoomTypeName(req.roomType);
      var (o, t') := Commit(t, plan, bookingId, fault);
      && o == Response(200, Confirmation(bookingId, req.guestName.s, req.checkInDate, req.nights, rt, plan.stayDates))
      && bookingId !in t.bookings
      && t'.bookings == t.bookings[bookingId := NewBookingItem(bookingId, req.guestName.s, req, plan.stayDates)]
      && DecrementedByOne(t.avail, t'.avail, plan.stayDates, rt)
      && UnchangedElsewhere(t.avail, t'.avail, plan.stayDates, rt)
  {
    var req := plan.request;
    var rt := RoomTypeName(req.roomType);
    var tx := Transaction(plan, bookingId);
    var item := NewBookingItem(bookingId, req.guestName.s, req, plan.stayDates);
    assert tx == plan.updates + [Put(item)];
    assert tx[..|plan.stayDates|] == plan.updates;
    assert TransactWriteItems(t, tx, fault).0 == Committed;
    assert Commit(t, plan, bookingId, fault).1 == ApplyAll(t, tx);
    assert ConditionHolds(t, tx[|tx| - 1]);
    ApplyAllBookings(t, plan.updates, item);
    DecrementedCells(t, plan.stayDates, rt, tx);
    UntouchedCells(t, plan.stayDates, rt, tx);
  }

  /**
   * A confirmed booking: the response echoes the id, the guest name, the
   * check-in date as given, the nights, the canonical room type and the stay
   * dates; the booking table gains exactly the new item under a fresh id; each
   * stay date's count for the room type, read as at least one, is stored one
   * lower as a decimal string; every other cell is unchanged and no date is
   * added or removed.
   */
  lemma BookingEffect(t: Tables, event: map<string, Json>, bookingId: string, fault: Option<string>)
    requires Booked(Handle(t, event, bookingId, fault).0)
    ensures PlanBooking(t.avail, event).Next?
    ensures var plan := PlanBooking(t.avail, event).value;
      var req := plan.request;
      var rt := RoomTypeName(req.roomType);
      var (o, t') := Handle(t, event, bookingId, fault);
      && req.guestName.JStr?
      && o == Response(200, Confirmation(bookingId, req.guestName.s, req.checkInDate, req.nights, rt, plan.stayDates))
      && bookingId !in t.bookings
      && t'.bookings == t.bookings[bookingId := NewBookingItem(bookingId, req.guestName.s, req, plan.stayDates)]
      && DecrementedByOne(t.avail, t'.avail, plan.stayDates, rt)
      && UnchangedElsewhere(t.avail, t'.avail, plan.stayDates, rt)
  {
    if PlanBooking(t.avail, event).Stop? {
      PlanStopsAreErrors(t.avail, event);
      assert false;
    }
    var plan := PlanBooking(t.avail, event).value;
    assert Handle(t, event, bookingId, fault) == Commit(t, plan, bookingId, fault);
    PlanShape(t.avail, event);
    CommitEffect(t, plan, bookingId, fault);
  }

  ghost predicate SomeUnreadable(avail: AvailTable, dates: seq<string>, rt: string)
  {
    exists i :: 0 <= i < |dates| && Classify(avail, dates[i], rt) == Unreadable
  }

  ghost predicate SomeMissing(avail: AvailTable, dates: seq<string>, rt: string)
  {
    exists i :: 0 <= i < |dates| && Classify(avail, dates[i], rt) == NoRecord
  }

  ghost predicate SomeLow(avail: AvailTable, dates: seq<string>, rt: string)
  {
    exists i :: 0 <= i < |dates| && Classify(avail, dates[i], rt).Low?
  }

  /** The pre-read finds a missing date exactly when there is one, and a shortage exactly when there is one. */
  lemma PreReadFinds(avail: AvailTable, dates: seq<string>, rt: string)
    ensures PreReadDates(avail, dates, rt).Stop? <==> SomeUnreadable(avail, dates, rt)
    ensures PreReadDates(avail, dates, rt).Next? ==>
      && (PreReadDates(avail, dates, rt).value.missing != [] <==> SomeMissing(avail, dates, rt))
      && (PreReadDates(avail, dates, rt).value.insufficient != [] <==> SomeLow(avail, dates, rt))
      && SortedAsRead(avail, dates, rt, PreReadDates(avail, dates, rt).value)
  {
    PreReadSortsEveryDate(avail, dates, rt);
    if PreReadDates(avail, dates, rt).Next? {
      var pre := PreReadDates(avail, dates, rt).value;
      if pre.missing != [] {
        assert pre.missing[0] in pre.missing;
      }
      if SomeMissing(avail, dates, rt) {
        var i :| 0 <= i < |dates| && Classify(avail, dates[i], rt) == NoRecord;
        assert dates[i] in pre.missing;
      }
      if pre.insufficient != [] {
        var s := pre.insufficient[0];
        assert Shortfall(s.date, s.available) in pre.insufficient;
      }
      if SomeLow(avail, dates, rt) {
        var i :| 0 <= i < |dates| && Classify(avail, dates[i], rt).Low?;
        assert Shortfall(dates[i], Classify(avail, dates[i], rt).count) in pre.insufficient;
      }
    }
  }

  /**
   * Once the request is valid and its stay dates are known, the pre-check
   * decides, and writes nothing unless it lets the booking through: the first
   * unreadable count is a 500 naming its date; otherwise every date without a
   * record is listed in a 404, ahead of any shortage; otherwise every date
   * whose count is below one is listed with that count in a 404; a request
   * whose every date is in stock goes on to the write.
   */
  lemma PreCheckOutcome(t: Tables, event: map<string, Json>, bookingId: string, fault: Option<string>,
                        req: Request, stayDates: seq<string>)
    requires RequestOf(event) == Next(req)
    requires DateSeq(req.checkInDate, req.nights) == Next(stayDates)
    ensures var rt := RoomTypeName(req.roomType);
      var (o, t') := Handle(t, event, bookingId, fault);
      && (SomeUnreadable(t.avail, stayDates, rt) ==>
            && t' == t
            && exists i :: FirstUnreadable(t.avail, stayDates, rt, i) && o == Response(500, Error(MsgCorrupt(rt, stayDates[i]))))
      && (!SomeUnreadable(t.avail, stayDates, rt) && SomeMissing(t.avail, stayDates, rt) ==>
            && t' == t
            && o.Response? && o.status == 404 && o.body.MissingDates? && o.body.error == MsgNoRecord
            && forall d :: d in o.body.missingDates <==> d in stayDates && Classify(t.avail, d, rt) == NoRecord)
      && (!SomeUnreadable(t.avail, stayDates, rt) && !SomeMissing(t.avail, stayDates, rt) && SomeLow(t.avail, stayDates, rt) ==>
            && t' == t
            && o.Response? && o.status == 404 && o.body.Insufficient? && o.body.error == MsgInsufficient
            && forall d, c :: Shortfall(d, c) in o.body.details <==> d in stayDates && Classify(t.avail, d, rt) == Low(c))
      && (!SomeUnreadable(t.avail, stayDates, rt) && !SomeMissing(t.avail, stayDates, rt) && !SomeLow(t.avail, stayDates, rt) ==>
            PlanBooking(t.avail, event).Next?)
  {
    var rt := RoomTypeName(req.roomType);
    PreReadFinds(t.avail, stayDates, rt);
    PreReadSortsEveryDate(t.avail, stayDates, rt);
    assert PlanBooking(t.avail, event) == PlanRequest(t.avail, req);
    match PreReadDates(t.avail, stayDates, rt)
    case Stop(o) =>
    case Next(pre) =>
      assert PlanRequest(t.avail, req) == Decide(req, stayDates, pre);
      if pre.missing == [] && pre.insufficient == [] {
        RaceGuardNeverFires(t.avail, stayDates, rt, pre);
      }
  }
}
