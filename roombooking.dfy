/**
 * The hotel reservation handler (lambdas/roombooking/handler.py): request
 * extraction, room-type normalisation, the stay-date run, and the handler
 * itself, first as a specification function `Handle` and then as the
 * imperative `LambdaHandler` proved equal to it.
 */
module RoomBooking {
  import opened Optional
  import opened Json
  import opened Decimal
  import opened Calendar
  import opened DynamoDb

  // ---------------------------------------------------------------------
  // Outcomes
  // ---------------------------------------------------------------------

  /** A date whose count is below one, with that count. */
  datatype Shortfall = Shortfall(date: string, available: int)

  /** The JSON body of a response. */
  datatype Body =
    | Error(error: string)
    | MissingDates(error: string, missingDates: seq<string>)
    | Insufficient(error: string, details: seq<Shortfall>)
    /** Its `details` field carries the error code. */
    | TxFailure(error: string, code: string)
    | Confirmation(
        returnBookingID: string,
        guestName: string,
        checkInDate: string,
        numberofNights: int,
        roomType: string,
        reservedDates: seq<string>)

  /** What one invocation ends in: a response, or an exception that escapes the handler. */
  datatype Outcome = Response(status: int, body: Body) | Raised(exception: string)

  /** A stage either hands its value on or ends the invocation. */
  datatype Step<T> = Next(value: T) | Stop(outcome: Outcome)

  const MaxNights := 24

  const MsgMissingFields := "Missing guestName, checkInDate, numberofNights or roomType"
  const MsgBadNights := "numberofNights must be a positive integer"
  const MsgTooManyNights := "numberofNights too large for a single transaction (max 24)"
  const MsgBadDate := "checkInDate must be YYYY-MM-DD"
  const MsgBadRoomType := "roomType must be 'seaView' or 'gardenView'"
  const MsgNoRecord := "No availability record for some dates"
  const MsgInsufficient := "Insufficient availability"
  const MsgRace := "Race detected: availability changed, please retry"
  const MsgChanged := "Availability changed during booking. Please retry."
  const MsgTxFailed := "Transaction failed"

  function MsgCorrupt(roomType: string, date: string): (msg: string)
  {
    "Invalid " + roomType + " value on " + date + ". Expected stringified int"
  }

  // ---------------------------------------------------------------------
  // _body_from_event
  // ---------------------------------------------------------------------

  /**
   * `{p.get("name"): p.get("value") for p in props}`. A later entry replaces
   * an earlier one of the same name. An entry that is not an object raises
   * AttributeError, a list or object as name raises TypeError; entries named
   * by None, a boolean or a number are kept by Python under keys no string
   * lookup can reach, so they are left out of the map.
   */
  function PropertiesToMap(props: seq<Json>): (r: Step<map<string, Json>>)
    ensures r.Stop? ==> r.outcome == Raised("AttributeError") || r.outcome == Raised("TypeError")
  {
    if props == [] then Next(map[])
    else
      match PropertiesToMap(props[..|props| - 1])
      case Stop(o) => Stop(o)
      case Next(m) =>
        var p := props[|props| - 1];
        if !p.JObject? then Stop(Raised("AttributeError"))
        else
          var name := Get(p.fields, "name");
          if name.JArray? || name.JObject? then Stop(Raised("TypeError"))
          else if name.JStr? then Next(m[name.s := Get(p.fields, "value")])
          else Next(m)
  }

  /**
   * `_body_from_event`: the JSON under requestBody / content /
   * application/json; a `properties` list of name/value pairs becomes a map;
   * an absent or empty body becomes `{}`. A non-object on the way raises
   * AttributeError.
   */
  function BodyFromEvent(event: map<string, Json>): (r: Step<Json>)
    ensures r.Stop? ==> r.outcome == Raised("AttributeError") || r.outcome == Raised("TypeError")
  {
    var requestBody := Get(event, "requestBody");
    var outer := if Truthy(requestBody) then requestBody else JObject(map[]);
    if !outer.JObject? then Stop(Raised("AttributeError"))
    else
      var content := GetOr(outer.fields, "content", JObject(map[]));
      if !content.JObject? then Stop(Raised("AttributeError"))
      else
        var rb := Get(content.fields, "application/json");
        if rb.JObject? && "properties" in rb.fields && rb.fields["properties"].JArray? then
          match PropertiesToMap(rb.fields["properties"].items)
          case Stop(o) => Stop(o)
          case Next(m) => Next(JObject(m))
        else
          Next(if Truthy(rb) then rb else JObject(map[]))
  }

  // ---------------------------------------------------------------------
  // _normalize_room_type
  // ---------------------------------------------------------------------

  datatype RoomType = SeaView | GardenView

  /** The canonical name, which is also the attribute name in the availability table. */
  function RoomTypeName(t: RoomType): (name: string)
  {
    match t
    case SeaView => "seaView"
    case GardenView => "gardenView"
  }

  /** The characters Python's `str.strip()` removes. */
  predicate IsWhitespace(c: char)
  {
    var n := c as int;
    (0x09 <= n <= 0x0D) || (0x1C <= n <= 0x20) || n == 0x85 || n == 0xA0 || n == 0x1680
    || (0x2000 <= n <= 0x200A) || n == 0x2028 || n == 0x2029 || n == 0x202F || n == 0x205F || n == 0x3000
  }

  function StripLeft(s: string): (r: string)
    ensures |r| <= |s| && r == s[|s| - |r|..]
    ensures forall k :: 0 <= k < |s| - |r| ==> IsWhitespace(s[k])
    ensures r != [] ==> !IsWhitespace(r[0])
  {
    if s != [] && IsWhitespace(s[0]) then StripLeft(s[1..]) else s
  }

  function StripRight(s: string): (r: string)
    ensures |r| <= |s| && r == s[..|r|]
    ensures forall k :: |r| <= k < |s| ==> IsWhitespace(s[k])
    ensures r != [] ==> !IsWhitespace(r[|r| - 1])
  {
    if s != [] && IsWhitespace(s[|s| - 1]) then StripRight(s[..|s| - 1]) else s
  }

  /** `s.strip()` */
  function Strip(s: string): (r: string)
    ensures |r| <= |s|
    ensures r != [] ==> !IsWhitespace(r[0]) && !IsWhitespace(r[|r| - 1])
  {
    StripRight(StripLeft(s))
  }

  function LowerChar(c: char): (r: char)
  {
    if 'A' <= c <= 'Z' then (c as int - 'A' as int + 'a' as int) as char else c
  }

  /** `s.lower()` on ASCII letters. */
  function Lower(s: string): (r: string)
    ensures |r| == |s|
    ensures forall i :: 0 <= i < |s| ==> r[i] == LowerChar(s[i])
  {
    if s == [] then [] else [LowerChar(s[0])] + Lower(s[1..])
  }

  /** `s.replace(c, "")` */
  function Remove(s: string, c: char): (r: string)
    ensures forall i :: 0 <= i < |r| ==> r[i] != c && r[i] in s
  {
    if s == [] then [] else (if s[0] == c then [] else [s[0]]) + Remove(s[1..], c)
  }

  /** `rt.strip().lower().replace("_", "").replace(" ", "")` */
  function Canonical(s: string): (r: string)
    ensures forall i :: 0 <= i < |r| ==> r[i] != '_' && r[i] != ' '
  {
    Remove(Remove(Lower(Strip(s)), '_'), ' ')
  }

  const SeaViewSpellings: set<string> := {"seaview", "sea", "seaviewroom"}
  const GardenViewSpellings: set<string> := {"gardenview", "garden", "gardenviewroom"}

  /** `_normalize_room_type`: None and the empty text give None. */
  function NormalizeRoomType(rt: Option<string>): (r: Option<RoomType>)
    ensures rt.None? || rt == Some("") ==> r.None?
    ensures r == Some(SeaView) <==> rt.Some? && rt.value != "" && Canonical(rt.value) in SeaViewSpellings
    ensures r == Some(GardenView) <==> rt.Some? && rt.value != "" && Canonical(rt.value) in GardenViewSpellings
  {
    if rt.None? || rt.value == "" then None
    else
      var s := Canonical(rt.value);
      if s in SeaViewSpellings then Some(SeaView)
      else if s in GardenViewSpellings then Some(GardenView)
      else None
  }

  // ---------------------------------------------------------------------
  // _date_seq
  // ---------------------------------------------------------------------

  /**
   * The `n` consecutive calendar days from `d`: element i is `d + timedelta(days=i)`.
   * None when one of them would pass 9999-12-31.
   */
  function DayRun(d: Date, n: nat): (r: Option<seq<Date>>)
    requires IsValid(d)
    ensures r.Some? ==> |r.value| == n
    ensures r.Some? ==> forall i :: 0 <= i < n ==> IsValid(r.value[i]) && Ordinal(r.value[i]) == Ordinal(d) + i
    ensures r.Some? && n > 0 ==> r.value[0] == d
    ensures r.Some? ==> forall i :: 0 <= i < n - 1 ==> NextDay(r.value[i]) == Some(r.value[i + 1])
    ensures r.Some? ==> forall i, j :: 0 <= i < j < n ==> Before(r.value[i], r.value[j])
    decreases n
  {
    if n == 0 then Some([])
    else if n == 1 then Some([d])
    else
      match NextDay(d)
      case None => None
      case Some(e) =>
        match DayRun(e, n - 1)
        case None => None
        case Some(rest) => Some([d] + rest)
  }

  function IsoAll(ds: seq<Date>): (r: seq<string>)
    requires forall i :: 0 <= i < |ds| ==> IsValid(ds[i])
    ensures |r| == |ds| && forall i :: 0 <= i < |ds| ==> r[i] == IsoFormat(ds[i])
  {
    seq(|ds|, i requires 0 <= i < |ds| => IsoFormat(ds[i]))
  }

  /**
   * `_date_seq(start, nights)`: the ISO texts of the stay dates. An
   * unparsable start raises ValueError, a stay past 9999-12-31 OverflowError.
   */
  function DateSeq(start: string, nights: int): (r: Step<seq<string>>)
    ensures r.Stop? <==> ParseDate(start).None? || DayRun(ParseDate(start).value, if nights < 0 then 0 else nights).None?
    ensures r.Stop? ==> r.outcome == Raised(if ParseDate(start).None? then "ValueError" else "OverflowError")
    ensures r.Next? ==> ParseDate(start).Some? && |r.value| == if nights < 0 then 0 else nights
  {
    match ParseDate(start)
    case None => Stop(Raised("ValueError"))
    case Some(d0) =>
      match DayRun(d0, if nights < 0 then 0 else nights)
      case None => Stop(Raised("OverflowError"))
      case Some(ds) => Next(IsoAll(ds))
  }

  // ---------------------------------------------------------------------
  // Request validation (lambda_handler, lines 66-91)
  // ---------------------------------------------------------------------

  datatype Request = Request(guestName: Json, checkInDate: string, nights: int, roomType: RoomType)

  /** `int(str(v))`, None where Python raises ValueError. */
  function IntOfJson(v: Json): (r: Option<int>)
    ensures v.JNum? ==> r == Some(v.n)
    ensures v.JStr? ==> r == ParseInt(v.s)
    ensures !v.JNum? && !v.JStr? ==> r.None?
  {
    match v
    case JStr(s) => ParseInt(s)
    case JNum(n) => Some(n)
    case _ => None
  }

  /** Lines 66-91: the four fields are read and checked in a fixed order. */
  function ValidateRequest(body: map<string, Json>): (r: Step<Request>)
    ensures r.Next? ==> 1 <= r.value.nights <= MaxNights
    ensures r.Next? ==> ParseDate(r.value.checkInDate).Some?
    ensures r.Next? ==> Truthy(r.value.guestName) && r.value.guestName == Get(body, "guestName")
    ensures r.Next? ==> Get(body, "checkInDate") == JStr(r.value.checkInDate)
    ensures r.Next? ==> IntOfJson(Get(body, "numberofNights")) == Some(r.value.nights)
    ensures r.Next? ==> Get(body, "roomType").JStr?
                        && NormalizeRoomType(Some(Get(body, "roomType").s)) == Some(r.value.roomType)
    ensures r.Stop? && r.outcome.Response? ==> r.outcome.status == 400
    ensures r.Stop? && r.outcome.Raised? ==> r.outcome.exception == "AttributeError"
  {
    var guestName := Get(body, "guestName");
    var checkInDate := Get(body, "checkInDate");
    var nightsRaw := Get(body, "numberofNights");
    var roomTypeIn := Get(body, "roomType");
    if !(Truthy(guestName) && Truthy(checkInDate) && Truthy(nightsRaw) && Truthy(roomTypeIn)) then
      Stop(Response(400, Error(MsgMissingFields)))
    else if IntOfJson(nightsRaw).None? || IntOfJson(nightsRaw).value <= 0 then
      Stop(Response(400, Error(MsgBadNights)))
    else if IntOfJson(nightsRaw).value > MaxNights then
      Stop(Response(400, Error(MsgTooManyNights)))
    else if !checkInDate.JStr? || ParseDate(checkInDate.s).None? then
      Stop(Response(400, Error(MsgBadDate)))
    else if !roomTypeIn.JStr? then
      Stop(Raised("AttributeError"))
    else
      match NormalizeRoomType(Some(roomTypeIn.s))
      case None => Stop(Response(400, Error(MsgBadRoomType)))
      case Some(rt) => Next(Request(guestName, checkInDate.s, IntOfJson(nightsRaw).value, rt))
  }

  // ---------------------------------------------------------------------
  // Availability pre-read (lines 96-114)
  // ---------------------------------------------------------------------

  /** The count read for one date, kept both as read and as parsed. */
  datatype Snapshot = Snapshot(oldStr: string, oldInt: int)

  datatype PreRead = PreRead(snapshots: map<string, Snapshot>, missing: seq<string>, insufficient: seq<Shortfall>)

  /** How one date reads for one room type. */
  datatype Reading = NoRecord | Unreadable | Low(count: int) | InStock(raw: string, count: int)

  /** Lines 99-109 for one date: no item or no attribute; not a string or not an integer; below one; otherwise in stock. */
  function ReadCount(item: Option<Item>, rt: string): (r: Reading)
    ensures r == NoRecord <==> item.None? || rt !in item.value
    ensures r == Unreadable <==>
      item.Some? && rt in item.value && (!item.value[rt].S? || ParseInt(item.value[rt].s).None?)
    ensures r.InStock? ==> item.Some? && rt in item.value && item.value[rt] == S(r.raw)
    ensures r.InStock? ==> r.count >= 1 && ParseInt(r.raw) == Some(r.count)
    ensures r.Low? ==> item.Some? && rt in item.value && item.value[rt].S?
                       && ParseInt(item.value[rt].s) == Some(r.count) && r.count < 1
  {
    if item.None? || rt !in item.value then NoRecord
    else
      match item.value[rt]
      case N(_) => Unreadable
      case S(s) =>
        match ParseInt(s)
        case None => Unreadable
        case Some(c) => if c < 1 then Low(c) else InStock(s, c)
  }

  function Classify(avail: AvailTable, d: string, rt: string): (r: Reading)
    ensures r == NoRecord <==> d !in avail || rt !in avail[d]
    ensures r.InStock? ==> d in avail && rt in avail[d] && avail[d][rt] == S(r.raw)
  {
    ReadCount(if d in avail then Some(avail[d]) else None, rt)
  }

  /**
   * The pre-read loop over `dates`: it stops with a 500 at the first date
   * whose count is unreadable, and otherwise sorts every date into missing,
   * insufficient or snapshotted.
   */
  function PreReadDates(avail: AvailTable, dates: seq<string>, rt: string): (r: Step<PreRead>)
    ensures r.Next? && r.value.missing == [] && r.value.insufficient == [] ==>
      forall d :: d in dates ==> d in r.value.snapshots
    ensures r.Stop? ==> r.outcome.Response? && r.outcome.status == 500
  {
    if dates == [] then Next(PreRead(map[], [], []))
    else
      var d := dates[|dates| - 1];
      match PreReadDates(avail, dates[..|dates| - 1], rt)
      case Stop(o) => Stop(o)
      case Next(p) =>
        match Classify(avail, d, rt)
        case NoRecord => Next(p.(missing := p.missing + [d]))
        case Unreadable => Stop(Response(500, Error(MsgCorrupt(rt, d))))
        case Low(c) => Next(p.(insufficient := p.insufficient + [Shortfall(d, c)]))
        case InStock(s, c) => Next(p.(snapshots := p.snapshots[d := Snapshot(s, c)]))
  }

  // ---------------------------------------------------------------------
  // Transaction build (lines 117-145)
  // ---------------------------------------------------------------------

  /** Lines 128-133: the compare-and-set of one date, from the text and count read there. */
  function Decrement(d: string, rt: string, snap: Snapshot): TxOp
  {
    Update(d, rt, snap.oldStr, IntToString(snap.oldInt - 1))
  }

  /**
   * One conditional decrement per date, in stay order; stops with a 409 if a
   * snapshot would go below zero.
   */
  function Decrements(dates: seq<string>, rt: string, snapshots: map<string, Snapshot>): (r: Step<seq<TxOp>>)
    requires forall d :: d in dates ==> d in snapshots
    ensures r.Next? ==> |r.value| == |dates|
    ensures r.Next? ==> forall i :: 0 <= i < |dates| ==> r.value[i] == Decrement(dates[i], rt, snapshots[dates[i]])
    ensures r.Stop? <==> exists d :: d in dates && snapshots[d].oldInt - 1 < 0
    ensures r.Stop? ==> r.outcome == Response(409, Error(MsgRace))
  {
    if dates == [] then Next([])
    else
      var init, d := dates[..|dates| - 1], dates[|dates| - 1];
      assert dates == init + [d];
      match Decrements(init, rt, snapshots)
      case Stop(o) => Stop(o)
      case Next(ops) =>
        var snap := snapshots[d];
        if snap.oldInt - 1 < 0 then Stop(Response(409, Error(MsgRace)))
        else Next(ops + [Decrement(d, rt, snap)])
  }

  /** Lines 137-144. */
  function NewBookingItem(bookingId: string, guestName: string, req: Request, stayDates: seq<string>): (item: BookingItem)
    ensures item.bookingID == bookingId && item.guestName == guestName && item.checkInDate == req.checkInDate
    ensures item.numberofNights == IntToString(req.nights) && ParseInt(item.numberofNights) == Some(req.nights)
    ensures item.roomType == RoomTypeName(req.roomType) && item.stayDates == stayDates
  {
    ParseIntToString(req.nights);
    BookingItem(bookingId, guestName, req.checkInDate, IntToString(req.nights), RoomTypeName(req.roomType), stayDates)
  }

  /** What the handler has decided before it writes: the request, the stay dates and the decrements. */
  datatype Plan = Plan(request: Request, stayDates: seq<string>, updates: seq<TxOp>)

  /** The full transaction: the decrements, then the booking put. */
  function Transaction(plan: Plan, bookingId: string): (tx: seq<TxOp>)
    requires plan.request.guestName.JStr?
    ensures |tx| == |plan.updates| + 1 && tx[..|plan.updates|] == plan.updates
    ensures tx[|tx| - 1] == Put(NewBookingItem(bookingId, plan.request.guestName.s, plan.request, plan.stayDates))
  {
    plan.updates + [Put(NewBookingItem(bookingId, plan.request.guestName.s, plan.request, plan.stayDates))]
  }

  // ---------------------------------------------------------------------
  // lambda_handler as a function of the tables
  // ---------------------------------------------------------------------

  /** Lines 65-91: the request, or the outcome that ends the invocation first. */
  function RequestOf(event: map<string, Json>): (r: Step<Request>)
    ensures r.Stop? && r.outcome.Response? ==> r.outcome.status == 400
    ensures r.Stop? && r.outcome.Raised? ==> r.outcome.exception == "AttributeError" || r.outcome.exception == "TypeError"
  {
    match BodyFromEvent(event)
    case Stop(o) => Stop(o)
    case Next(body) =>
      if !body.JObject? then Stop(Raised("AttributeError")) else ValidateRequest(body.fields)
  }

  /** Lines 111-135, once every stay date has been read. */
  function Decide(req: Request, stayDates: seq<string>, pre: PreRead): (r: Step<Plan>)
    requires pre.missing == [] && pre.insufficient == [] ==> forall d :: d in stayDates ==> d in pre.snapshots
    ensures r.Stop? ==> r.outcome.Response? && (r.outcome.status == 404 || r.outcome.status == 409)
    ensures r.Next? ==> r.value.request == req && r.value.stayDates == stayDates
  {
    if |pre.missing| > 0 then Stop(Response(404, MissingDates(MsgNoRecord, pre.missing)))
    else if |pre.insufficient| > 0 then Stop(Response(404, Insufficient(MsgInsufficient, pre.insufficient)))
    else
      match Decrements(stayDates, RoomTypeName(req.roomType), pre.snapshots)
      case Stop(o) => Stop(o)
      case Next(updates) => Next(Plan(req, stayDates, updates))
  }

  /** Lines 93-135 for a validated request. */
  function PlanRequest(avail: AvailTable, req: Request): (r: Step<Plan>)
    ensures r.Stop? && r.outcome.Response? ==> r.outcome.status in {404, 409, 500}
    ensures r.Stop? && r.outcome.Raised? ==> r.outcome.exception == "ValueError" || r.outcome.exception == "OverflowError"
    ensures r.Next? ==> r.value.request == req
  {
    match DateSeq(req.checkInDate, req.nights)
    case Stop(o) => Stop(o)
    case Next(stayDates) =>
      match PreReadDates(avail, stayDates, RoomTypeName(req.roomType))
      case Stop(o) => Stop(o)
      case Next(pre) => Decide(req, stayDates, pre)
  }

  /** Lines 65-135: everything before the write. It only reads the availability table. */
  function PlanBooking(avail: AvailTable, event: map<string, Json>): (r: Step<Plan>)
    ensures r.Stop? && r.outcome.Response? ==> r.outcome.status in {400, 404, 409, 500}
    ensures r.Next? ==> RequestOf(event) == Next(r.value.request)
  {
    match RequestOf(event)
    case Stop(o) => Stop(o)
    case Next(req) => PlanRequest(avail, req)
  }

  /**
   * Lines 147-161: the write and its outcome. botocore refuses a booking item
   * whose guest name is not a string before anything is sent
   * (ParamValidationError, which is not a ClientError and escapes).
   */
  function Commit(t: Tables, plan: Plan, bookingId: string, fault: Option<string>): (r: (Outcome, Tables))
    ensures r.0.Response? && r.0.status == 200 ==>
      plan.request.guestName.JStr? && r.1 == ApplyAll(t, Transaction(plan, bookingId))
    ensures !(r.0.Response? && r.0.status == 200) ==> r.1 == t
    ensures r.0.Response? ==> r.0.status in {200, 409, 500}
  {
    if !plan.request.guestName.JStr? then (Raised("ParamValidationError"), t)
    else
      var (res, t') := TransactWriteItems(t, Transaction(plan, bookingId), fault);
      match res
      case Committed =>
        var req := plan.request;
        (Response(200, Confirmation(bookingId, req.guestName.s, req.checkInDate, req.nights,
                                    RoomTypeName(req.roomType), plan.stayDates)), t')
      case ClientError(code) =>
        if code == TransactionCanceled then (Response(409, Error(MsgChanged)), t')
        else (Response(500, TxFailure(MsgTxFailed, code)), t')
  }

  /** One invocation of lambda_handler: its outcome and the tables afterwards. */
  function Handle(t: Tables, event: map<string, Json>, bookingId: string, fault: Option<string>): (r: (Outcome, Tables))
    ensures !(r.0.Response? && r.0.status == 200) ==> r.1 == t
    ensures r.0.Response? ==> r.0.status in {200, 400, 404, 409, 500}
  {
    match PlanBooking(t.avail, event)
    case Stop(o) => (o, t)
    case Next(plan) => Commit(t, plan, bookingId, fault)
  }

  lemma {:induction false} PreReadStopPersists(avail: AvailTable, dates: seq<string>, i: nat, rt: string)
    requires i <= |dates|
    requires PreReadDates(avail, dates[..i], rt).Stop?
    ensures PreReadDates(avail, dates, rt) == PreReadDates(avail, dates[..i], rt)
    decreases |dates| - i
  {
    if i < |dates| {
      assert dates[..i + 1][..i] == dates[..i];
      PreReadStopPersists(avail, dates, i + 1, rt);
    } else {
      assert dates[..i] == dates;
    }
  }

  // ---------------------------------------------------------------------
  // lambda_handler
  // ---------------------------------------------------------------------

  /**
   * Lines 96-109: reads every stay date, sorting it into missing,
   * insufficient or snapshotted; an unreadable count ends the loop with a 500.
   */
  method ReadAvailability(store: Store, stayDates: seq<string>, roomType: string) returns (r: Step<PreRead>)
    ensures r == PreReadDates(store.avail, stayDates, roomType)
  {
    var snapshots: map<string, Snapshot> := map[];
    var missing: seq<string> := [];
    var insufficient: seq<Shortfall> := [];
    var i := 0;
    while i < |stayDates|
      invariant 0 <= i <= |stayDates|
      invariant PreReadDates(store.avail, stayDates[..i], roomType) == Next(PreRead(snapshots, missing, insufficient))
    {
      var d := stayDates[i];
      assert stayDates[..i + 1][..i] == stayDates[..i];
      var item := store.GetItem(d);
      if item.None? || roomType !in item.value {
        missing := missing + [d];
      } else {
        var curr := if item.value[roomType].S? then ParseInt(item.value[roomType].s) else None;
        if curr.None? {
          PreReadStopPersists(store.avail, stayDates, i + 1, roomType);
          return Stop(Response(500, Error(MsgCorrupt(roomType, d))));
        }
        if curr.value < 1 {
          insufficient := insufficient + [Shortfall(d, curr.value)];
        } else {
          snapshots := snapshots[d := Snapshot(item.value[roomType].s, curr.value)];
        }
      }
      i := i + 1;
    }
    assert stayDates[..i] == stayDates;
    return Next(PreRead(snapshots, missing, insufficient));
  }

  /** One more date of the decrement loop: the race 409, or one more update. */
  lemma DecrementsStep(dates: seq<string>, rt: string, snapshots: map<string, Snapshot>, i: int, ops: seq<TxOp>)
    requires forall d :: d in dates ==> d in snapshots
    requires 0 <= i < |dates|
    requires Decrements(dates[..i], rt, snapshots) == Next(ops)
    ensures var snap := snapshots[dates[i]];
      Decrements(dates[..i + 1], rt, snapshots)
        == if snap.oldInt - 1 < 0 then Stop(Response(409, Error(MsgRace)))
           else Next(ops + [Decrement(dates[i], rt, snap)])
  {
    var pre := dates[..i + 1];
    assert |pre| == i + 1 && pre[..i] == dates[..i] && pre[i] == dates[i];
  }

  /** A snapshot below one anywhere in the stay makes the whole loop the race 409. */
  lemma RaceAt(dates: seq<string>, rt: string, snapshots: map<string, Snapshot>, i: int)
    requires forall d :: d in dates ==> d in snapshots
    requires 0 <= i < |dates| && snapshots[dates[i]].oldInt < 1
    ensures Decrements(dates, rt, snapshots) == Stop(Response(409, Error(MsgRace)))
  {
    assert dates[i] in dates;
  }

  /**
   * Lines 118-135: one conditional decrement per stay date, in stay order; a
   * snapshot that would go below zero ends the loop with a 409.
   */
  method BuildDecrements(stayDates: seq<string>, roomType: string, snapshots: map<string, Snapshot>)
    returns (r: Step<seq<TxOp>>)
    requires forall d :: d in stayDates ==> d in snapshots
    ensures r == Decrements(stayDates, roomType, snapshots)
  {
    var updates: seq<TxOp> := [];
    var i := 0;
    while i < |stayDates|
      invariant 0 <= i <= |stayDates|
      invariant Decrements(stayDates[..i], roomType, snapshots) == Next(updates)
    {
      var d := stayDates[i];
      DecrementsStep(stayDates, roomType, snapshots, i, updates);
      var snap := snapshots[d];
      var newInt := snap.oldInt - 1;
      if newInt < 0 {
        RaceAt(stayDates, roomType, snapshots, i);
        return Stop(Response(409, Error(MsgRace)));
      }
      updates := updates + [Decrement(d, roomType, snap)];
      i := i + 1;
    }
    assert stayDates[..i] == stayDates;
    return Next(updates);
  }

  /**
   * lambda_handler. The booking id (a fresh uuid4 in the source) and any
   * ClientError code the write meets are parameters; the store stands for both
   * DynamoDB tables.
   */
  method LambdaHandler(store: Store, event: map<string, Json>, bookingId: string, fault: Option<string>)
    returns (out: Outcome)
    modifies store
    ensures (out, store.State()) == Handle(old(store.State()), event, bookingId, fault)
  {
    var body := BodyFromEvent(event);
    if body.Stop? {
      return body.outcome;
    }
    if !body.value.JObject? {
      return Raised("AttributeError");
    }
    var v := ValidateRequest(body.value.fields);
    if v.Stop? {
      return v.outcome;
    }
    var req := v.value;
    assert RequestOf(event) == Next(req);
    var roomType := RoomTypeName(req.roomType);
    var ds := DateSeq(req.checkInDate, req.nights);
    if ds.Stop? {
      return ds.outcome;
    }
    var stayDates := ds.value;

    var pre := ReadAvailability(store, stayDates, roomType);
    if pre.Stop? {
      return pre.outcome;
    }
    var snapshots, missing, insufficient := pre.value.snapshots, pre.value.missing, pre.value.insufficient;
    if |missing| > 0 {
      return Response(404, MissingDates(MsgNoRecord, missing));
    }
    if |insufficient| > 0 {
      return Response(404, Insufficient(MsgInsufficient, insufficient));
    }

    var built := BuildDecrements(stayDates, roomType, snapshots);
    if built.Stop? {
      return built.outcome;
    }
    var updates := built.value;
    ghost var plan := Plan(req, stayDates, updates);
    assert PlanBooking(store.avail, event) == Next(plan);

    if !req.guestName.JStr? {
      return Raised("ParamValidationError");
    }
    var item := NewBookingItem(bookingId, req.guestName.s, req, stayDates);
    var tx := updates + [Put(item)];
    assert tx == Transaction(plan, bookingId);
    var res := store.TransactWrite(tx, fault);
    match res
    case Committed =>
      out := Response(200, Confirmation(bookingId, req.guestName.s, req.checkInDate, req.nights, roomType, stayDates));
    case ClientError(code) =>
      if code == TransactionCanceled {
        out := Response(409, Error(MsgChanged));
      } else {
        out := Response(500, TxFailure(MsgTxFailed, code));
      }
  }
}
