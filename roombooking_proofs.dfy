/**
 * What the handler promises, proved about the specification `Handle` and its
 * stages: how a request body is read, how room types normalise, the stay-date
 * run, the validation order, the pre-read classification, the shape of the
 * transaction, and the effect of a whole invocation on the tables.
 */
module RoomBookingProofs {
  import opened Optional
  import opened Json
  import opened Decimal
  import opened Calendar
  import opened DynamoDb
  import opened RoomBooking

  // ---------------------------------------------------------------------
  // Availability pre-read
  // ---------------------------------------------------------------------

  /** The pre-read result lists exactly the dates of each kind, and snapshots each in-stock count as read. */
  ghost predicate SortedAsRead(avail: AvailTable, dates: seq<string>, rt: string, p: PreRead)
  {
    && (forall d :: d in p.missing <==> d in dates && Classify(avail, d, rt) == NoRecord)
    && (forall d, c :: Shortfall(d, c) in p.insufficient <==> d in dates && Classify(avail, d, rt) == Low(c))
    && (forall d :: d in p.snapshots <==> d in dates && Classify(avail, d, rt).InStock?)
    && (forall d :: d in p.snapshots ==> Classify(avail, d, rt) == InStock(p.snapshots[d].oldStr, p.snapshots[d].oldInt))
  }

  /** `dates[i]` is the first date whose count cannot be read as an integer. */
  ghost predicate FirstUnreadable(avail: AvailTable, dates: seq<string>, rt: string, i: int)
  {
    && 0 <= i < |dates|
    && Classify(avail, dates[i], rt) == Unreadable
    && forall j :: 0 <= j < i ==> Classify(avail, dates[j], rt) != Unreadable
  }

  /**
   * The pre-read stops exactly when some date is unreadable, with a 500 naming
   * the first; otherwise every date is reported in its class, so every missing
   * date is listed and not only the first.
   */
  lemma {:induction false} PreReadSortsEveryDate(avail: AvailTable, dates: seq<string>, rt: string)
    ensures PreReadDates(avail, dates, rt).Stop? <==>
              exists i :: 0 <= i < |dates| && Classify(avail, dates[i], rt) == Unreadable
    ensures PreReadDates(avail, dates, rt).Stop? ==>
              exists i :: FirstUnreadable(avail, dates, rt, i)
                && PreReadDates(avail, dates, rt).outcome == Response(500, Error(MsgCorrupt(rt, dates[i])))
    ensures PreReadDates(avail, dates, rt).Next? ==> SortedAsRead(avail, dates, rt, PreReadDates(avail, dates, rt).value)
  {
    if dates != [] {
      var init := dates[..|dates| - 1];
      var d := dates[|dates| - 1];
      assert dates == init + [d];
      PreReadSortsEveryDate(avail, init, rt);
      var r := PreReadDates(avail, init, rt);
      if r.Stop? {
        var i :| FirstUnreadable(avail, init, rt, i) && r.outcome == Response(500, Error(MsgCorrupt(rt, init[i])));
        assert FirstUnreadable(avail, dates, rt, i);
      } else if Classify(avail, d, rt) == Unreadable {
        assert FirstUnreadable(avail, dates, rt, |dates| - 1);
      }
    }
  }

  /** Given a pre-read that found no missing and no insufficient date, the decrement loop never takes the race branch of line 123. */
  lemma RaceGuardNeverFires(avail: AvailTable, dates: seq<string>, rt: string, pre: PreRead)
    requires PreReadDates(avail, dates, rt) == Next(pre)
    requires pre.missing == [] && pre.insufficient == []
    ensures forall d :: d in dates ==> d in pre.snapshots
    ensures Decrements(dates, rt, pre.snapshots).Next?
  {
    PreReadSortsEveryDate(avail, dates, rt);
  }

  // ---------------------------------------------------------------------
  // The stay-date run
  // ---------------------------------------------------------------------

  /**
   * `_date_seq` gives `nights` texts; the first is the check-in date in ISO
   * form, element i is i days later, each next one is the next calendar day,
   * and no text repeats.
   */
  lemma StayDatesAreConsecutive(start: string, nights: int)
    requires DateSeq(start, nights).Next?
    ensures ParseDate(start).Some?
    ensures var ds := DateSeq(start, nights).value;
      && |ds| == (if nights < 0 then 0 else nights)
      && (nights > 0 ==> ds[0] == IsoFormat(ParseDate(start).value))
      && (forall i :: 0 <= i < |ds| ==>
            ParseDate(ds[i]).Some? && Ordinal(ParseDate(ds[i]).value) == Ordinal(ParseDate(start).value) + i)
      && (forall i :: 0 <= i < |ds| - 1 ==> NextDay(ParseDate(ds[i]).value) == ParseDate(ds[i + 1]))
      && (forall i, j :: 0 <= i < j < |ds| ==> ds[i] != ds[j])
  {
    var d0 := ParseDate(start).value;
    var n: nat := if nights < 0 then 0 else nights;
    var run := DayRun(d0, n).value;
    var ds := DateSeq(start, nights).value;
    assert ds == IsoAll(run);
    forall i | 0 <= i < |ds|
      ensures ParseDate(ds[i]) == Some(run[i])
    {
      ParseIsoFormat(run[i]);
    }
    forall i, j | 0 <= i < j < |ds|
      ensures ds[i] != ds[j]
    {
      assert Before(run[i], run[j]);
    }
  }

  /** A run of `n` days from `d` fits the calendar exactly when its last day is at most 9999-12-31. */
  lemma {:induction false} DayRunFits(d: Date, n: nat)
    requires IsValid(d)
    ensures DayRun(d, n).Some? <==> n == 0 || Ordinal(d) + n - 1 <= Ordinal(LastDate)
    decreases n
  {
    OrdinalAtMostLast(d);
    if n >= 2 && d != LastDate {
      var e := NextDay(d).value;
      DayRunFits(e, n - 1);
    }
  }

  /** Element i of the run is `d + timedelta(days=i)`. */
  lemma {:induction false} DayRunIsAddDays(d: Date, n: nat, i: nat)
    requires IsValid(d) && DayRun(d, n).Some? && i < n
    ensures AddDays(d, i) == Some(DayRun(d, n).value[i])
  {
    if i > 0 {
      DayRunIsAddDays(d, n, i - 1);
    }
  }

  /**
   * `_date_seq` raises ValueError exactly when the check-in date does not
   * parse, and OverflowError exactly when the last night would fall after
   * 9999-12-31; otherwise element i is the ISO text of check-in + i days.
   */
  lemma StayDatesFit(start: string, nights: int)
    ensures ParseDate(start).None? <==> DateSeq(start, nights) == Stop(Raised("ValueError"))
    ensures ParseDate(start).Some? ==>
      (DateSeq(start, nights) == Stop(Raised("OverflowError")) <==>
         nights > 0 && Ordinal(ParseDate(start).value) + nights - 1 > Ordinal(LastDate))
    ensures DateSeq(start, nights).Next? ==>
      forall i :: 0 <= i < |DateSeq(start, nights).value| ==>
        AddDays(ParseDate(start).value, i).Some?
        && DateSeq(start, nights).value[i] == IsoFormat(AddDays(ParseDate(start).value, i).value)
  {
    if ParseDate(start).Some? {
      var d := ParseDate(start).value;
      var n: nat := if nights < 0 then 0 else nights;
      DayRunFits(d, n);
      if DayRun(d, n).Some? {
        forall i | 0 <= i < n
          ensures AddDays(d, i) == Some(DayRun(d, n).value[i])
        {
          DayRunIsAddDays(d, n, i);
        }
      }
    }
  }

  // ---------------------------------------------------------------------
  // The plan and its transaction
  // ---------------------------------------------------------------------

  /** The count stored for date `d` and attribute `a`, when it is a string that parses as an integer. */
  function CountAt(avail: AvailTable, d: string, a: string): (c: Option<int>)
  {
    match Cell(avail, d, a)
    case Some(S(s)) => ParseInt(s)
    case _ => None
  }

  /**
   * Update i names date i and room type `rt`, is conditioned on the exact text
   * read for it, and sets the count read minus one.
   */
  ghost predicate DecrementsAsRead(avail: AvailTable, dates: seq<string>, rt: string, updates: seq<TxOp>)
  {
    && |updates| == |dates|
    && forall i :: 0 <= i < |updates| ==>
         && updates[i].Update?
         && updates[i].date == dates[i]
         && updates[i].attr == rt
         && Cell(avail, dates[i], rt) == Some(S(updates[i].expected))
         && ParseInt(updates[i].expected).Some?
         && ParseInt(updates[i].expected).value >= 1
         && updates[i].newValue == IntToString(ParseInt(updates[i].expected).value - 1)
  }

  /** A date read as in stock holds its count as a string that parses to a number of at least one. */
  lemma InStockCell(avail: AvailTable, d: string, rt: string, snap: Snapshot)
    requires Classify(avail, d, rt) == InStock(snap.oldStr, snap.oldInt)
    ensures Cell(avail, d, rt) == Some(S(snap.oldStr))
    ensures ParseInt(snap.oldStr) == Some(snap.oldInt) && snap.oldInt >= 1
  {
  }

  /** Decrements built from snapshots that are the in-stock readings of their dates are decrements as read. */
  lemma SnapshotDecrements(avail: AvailTable, dates: seq<string>, rt: string, snapshots: map<string, Snapshot>,
                           updates: seq<TxOp>)
    requires forall d :: d in dates ==> d in snapshots
    requires forall d :: d in dates ==> Classify(avail, d, rt) == InStock(snapshots[d].oldStr, snapshots[d].oldInt)
    requires |updates| == |dates|
    requires forall i :: 0 <= i < |dates| ==>
      updates[i] == Update(dates[i], rt, snapshots[dates[i]].oldStr, IntToString(snapshots[dates[i]].oldInt - 1))
    ensures DecrementsAsRead(avail, dates, rt, updates)
  {
    forall i | 0 <= i < |updates|
      ensures && updates[i].Update?
              && updates[i].date == dates[i]
              && updates[i].attr == rt
              && Cell(avail, dates[i], rt) == Some(S(updates[i].expected))
              && ParseInt(updates[i].expected).Some?
              && ParseInt(updates[i].expected).value >= 1
              && updates[i].newValue == IntToString(ParseInt(updates[i].expected).value - 1)
    {
      var d := dates[i];
      assert d in dates;
      InStockCell(avail, d, rt, snapshots[d]);
    }
  }

  /** After a clean pre-read, every date has the snapshot of its in-stock reading. */
  lemma CleanSnapshots(avail: AvailTable, dates: seq<string>, rt: string, pre: PreRead)
    requires PreReadDates(avail, dates, rt) == Next(pre)
    requires pre.missing == [] && pre.insufficient == []
    ensures forall d :: d in dates ==> d in pre.snapshots
    ensures forall d :: d in dates ==> Classify(avail, d, rt) == InStock(pre.snapshots[d].oldStr, pre.snapshots[d].oldInt)
  {
    PreReadSortsEveryDate(avail, dates, rt);
  }

  /** After a clean pre-read, the decrement loop yields one decrement per date as read. */
  lemma DecrementsFollowReads(avail: AvailTable, dates: seq<string>, rt: string, pre: PreRead)
    requires PreReadDates(avail, dates, rt) == Next(pre)
    requires pre.missing == [] && pre.insufficient == []
    ensures forall d :: d in dates ==> d in pre.snapshots
    ensures Decrements(dates, rt, pre.snapshots).Next?
    ensures DecrementsAsRead(avail, dates, rt, Decrements(dates, rt, pre.snapshots).value)
  {
    RaceGuardNeverFires(avail, dates, rt, pre);
    CleanSnapshots(avail, dates, rt, pre);
    SnapshotDecrements(avail, dates, rt, pre.snapshots, Decrements(dates, rt, pre.snapshots).value);
  }

  /** The stages a plan went through, named. */
  lemma PlanStages(avail: AvailTable, event: map<string, Json>) returns (req: Request, stayDates: seq<string>, pre: PreRead)
    requires PlanBooking(avail, event).Next?
    ensures RequestOf(event) == Next(req)
    ensures DateSeq(req.checkInDate, req.nights) == Next(stayDates)
    ensures PreReadDates(avail, stayDates, RoomTypeName(req.roomType)) == Next(pre)
    ensures pre.missing == [] && pre.insufficient == []
    ensures forall d :: d in stayDates ==> d in pre.snapshots
    ensures Decrements(stayDates, RoomTypeName(req.roomType), pre.snapshots)
            == Next(PlanBooking(avail, event).value.updates)
    ensures PlanBooking(avail, event).value == Plan(req, stayDates, PlanBooking(avail, event).value.updates)
  {
    req := RequestOf(event).value;
    assert PlanBooking(avail, event) == PlanRequest(avail, req);
    stayDates := DateSeq(req.checkInDate, req.nights).value;
    pre := PreReadDates(avail, stayDates, RoomTypeName(req.roomType)).value;
    assert PlanRequest(avail, req) == Decide(req, stayDates, pre);
  }

  /**
   * When the handler gets as far as writing, the request was valid, the stay
   * dates are `_date_seq` of it, and there is one decrement per night as read.
   */
  lemma PlanShape(avail: AvailTable, event: map<string, Json>)
    requires PlanBooking(avail, event).Next?
    ensures var plan := PlanBooking(avail, event).value;
      && RequestOf(event) == Next(plan.request)
      && 1 <= plan.request.nights <= MaxNights
      && DateSeq(plan.request.checkInDate, plan.request.nights) == Next(plan.stayDates)
      && |plan.stayDates| == plan.request.nights
      && DecrementsAsRead(avail, plan.stayDates, RoomTypeName(plan.request.roomType), plan.updates)
  {
    var req, stayDates, pre := PlanStages(avail, event);
    DecrementsFollowReads(avail, stayDates, RoomTypeName(req.roomType), pre);
  }

  /** Decrements of distinct dates followed by one put name no item twice. */
  lemma {:induction false} DistinctDecrementsThenPut(dates: seq<string>, updates: seq<TxOp>, put: TxOp)
    requires |updates| == |dates|
    requires forall i :: 0 <= i < |updates| ==> updates[i].Update? && updates[i].date == dates[i]
    requires forall i, j :: 0 <= i < j < |dates| ==> dates[i] != dates[j]
    requires put.Put?
    ensures DistinctTargets(updates + [put])
  {
    var tx := updates + [put];
    forall i, j | 0 <= i < j < |tx|
      ensures TargetOf(tx[i]) != TargetOf(tx[j])
    {
      assert tx[i] == updates[i];
      if j < |updates| {
        assert tx[j] == updates[j];
      }
    }
  }

  /** The transaction of a plan whose decrements name its distinct stay dates in order. */
  lemma PlanTransactionShape(plan: Plan, bookingId: string)
    requires plan.request.guestName.JStr?
    requires |plan.stayDates| == plan.request.nights <= MaxNights
    requires |plan.updates| == |plan.stayDates|
    requires forall i :: 0 <= i < |plan.updates| ==> plan.updates[i].Update? && plan.updates[i].date == plan.stayDates[i]
    requires forall i, j :: 0 <= i < j < |plan.stayDates| ==> plan.stayDates[i] != plan.stayDates[j]
    ensures var tx := Transaction(plan, bookingId);
      && |tx| == plan.request.nights + 1 <= MaxNights + 1 <= MaxActions
      && tx[|tx| - 1] == Put(NewBookingItem(bookingId, plan.request.guestName.s, plan.request, plan.stayDates))
      && (forall i :: 0 <= i < |tx| - 1 ==> tx[i] == plan.updates[i])
      && DistinctTargets(tx)
  {
    var put := Put(NewBookingItem(bookingId, plan.request.guestName.s, plan.request, plan.stayDates));
    DistinctDecrementsThenPut(plan.stayDates, plan.updates, put);
  }

  /**
   * The transaction has nights + 1 actions (at most 25, within the store's
   * limit): the decrements in stay order, then the create-only booking put;
   * no item is named twice, so the store never refuses it as malformed.
   */
  lemma TransactionShape(avail: AvailTable, event: map<string, Json>, bookingId: string)
    requires PlanBooking(avail, event).Next?
    requires PlanBooking(avail, event).value.request.guestName.JStr?
    ensures var plan := PlanBooking(avail, event).value;
      var tx := Transaction(plan, bookingId);
      && |tx| == plan.request.nights + 1 <= MaxNights + 1 <= MaxActions
      && tx[|tx| - 1] == Put(NewBookingItem(bookingId, plan.request.guestName.s, plan.request, plan.stayDates))
      && (forall i :: 0 <= i < |tx| - 1 ==> tx[i] == plan.updates[i])
      && DistinctTargets(tx)
  {
    var plan := PlanBooking(avail, event).value;
    PlanShape(avail, event);
    StayDatesAreConsecutive(plan.request.checkInDate, plan.request.nights);
    PlanTransactionShape(plan, bookingId);
  }
}
