/**
 * How the handler reads a request: the body extraction of `_body_from_event`,
 * the room-type spellings `_normalize_room_type` accepts, and where the
 * validation of the number of nights draws its lines.
 */
module RequestProofs {
  import opened Optional
  import opened Json
  import opened Decimal
  import opened Calendar
  import opened RoomBooking

  // ---------------------------------------------------------------------
  // _body_from_event
  // ---------------------------------------------------------------------

  /** Every entry is an object whose name is not a list or an object, so Python can use it as a key. */
  predicate HashableEntries(props: seq<Json>)
  {
    forall i :: 0 <= i < |props| ==> props[i].JObject? && !Get(props[i].fields, "name").JArray? && !Get(props[i].fields, "name").JObject?
  }

  /** Entry i is named `k`, and no later entry is. */
  predicate LastNamed(props: seq<Json>, k: string, i: int)
  {
    && 0 <= i < |props|
    && props[i].JObject? && Get(props[i].fields, "name") == JStr(k)
    && forall j :: i < j < |props| ==> !(props[j].JObject? && Get(props[j].fields, "name") == JStr(k))
  }

  /**
   * A properties list becomes a map exactly when every entry is an object with
   * a hashable name; its keys are the string names that occur, each mapped to
   * the value of the last entry of that name.
   */
  lemma {:induction false} PropertiesBecomeMap(props: seq<Json>)
    ensures PropertiesToMap(props).Next? <==> HashableEntries(props)
    ensures PropertiesToMap(props).Next? ==>
      var m := PropertiesToMap(props).value;
      && (forall k :: k in m <==> exists i :: LastNamed(props, k, i))
      && (forall k, i :: LastNamed(props, k, i) ==> k in m && m[k] == Get(props[i].fields, "value"))
  {
    if props != [] {
      var init := props[..|props| - 1];
      var p := props[|props| - 1];
      PropertiesBecomeMap(init);
      assert forall i :: 0 <= i < |init| ==> init[i] == props[i];
      if PropertiesToMap(props).Next? {
        var m := PropertiesToMap(props).value;
        forall k | k in m
          ensures exists i :: LastNamed(props, k, i)
        {
          if p.JObject? && Get(p.fields, "name") == JStr(k) {
            assert LastNamed(props, k, |props| - 1);
          } else {
            var i :| LastNamed(init, k, i);
            assert LastNamed(props, k, i);
          }
        }
        forall k, i | LastNamed(props, k, i)
          ensures k in m && m[k] == Get(props[i].fields, "value")
        {
          if i < |props| - 1 {
            assert LastNamed(init, k, i);
          }
        }
      } else if HashableEntries(init) {
        assert !HashableEntries(props);
      }
    }
  }

  /**
   * The value under requestBody / content / application/json, when the first
   * two are objects (an absent content counts as an empty object).
   */
  function JsonAt(event: map<string, Json>): (v: Option<Json>)
  {
    match Get(event, "requestBody")
    case JObject(outer) =>
      (match GetOr(outer, "content", JObject(map[]))
       case JObject(content) => Some(Get(content, "application/json"))
       case _ => None)
    case _ => None
  }

  /**
   * `_body_from_event`: no request body, or a falsy value under
   * application/json, gives the empty object; an object body is used as it
   * is; a properties list of hashable entries becomes the map of its names to
   * the value of the last entry of each name; any other truthy value is
   * returned as it is, and the handler's first `.get` on it raises
   * AttributeError.
   */
  lemma BodyFromEventShapes(event: map<string, Json>)
    ensures !Truthy(Get(event, "requestBody")) ==> BodyFromEvent(event) == Next(JObject(map[]))
    ensures JsonAt(event).Some? && !Truthy(JsonAt(event).value) ==> BodyFromEvent(event) == Next(JObject(map[]))
    ensures JsonAt(event).Some? && Truthy(JsonAt(event).value) && !JsonAt(event).value.JObject? ==>
      && BodyFromEvent(event) == Next(JsonAt(event).value)
      && RequestOf(event) == Stop(Raised("AttributeError"))
    ensures JsonAt(event).Some? && JsonAt(event).value.JObject? ==>
      var f := JsonAt(event).value.fields;
      && (!("properties" in f && f["properties"].JArray?) ==> BodyFromEvent(event) == Next(JObject(f)))
      && ("properties" in f && f["properties"].JArray? && HashableEntries(f["properties"].items) ==>
            && BodyFromEvent(event).Next? && BodyFromEvent(event).value.JObject?
            && var props := f["properties"].items;
               var m := BodyFromEvent(event).value.fields;
               && (forall k :: k in m <==> exists i :: LastNamed(props, k, i))
               && (forall k, i :: LastNamed(props, k, i) ==> k in m && m[k] == Get(props[i].fields, "value")))
  {
    if JsonAt(event).Some? && JsonAt(event).value.JObject? {
      var f := JsonAt(event).value.fields;
      if "properties" in f && f["properties"].JArray? {
        PropertiesBecomeMap(f["properties"].items);
      } else if f == map[] {
        assert JsonAt(event).value == JObject(map[]);
      }
    }
  }

  // ---------------------------------------------------------------------
  // _normalize_room_type
  // ---------------------------------------------------------------------

  /** The characters of `s` other than underscores and spaces. */
  function Letters(s: string): (r: string)
  {
    if s == [] then [] else (if s[0] == '_' || s[0] == ' ' then [] else [s[0]]) + Letters(s[1..])
  }

  /** The only whitespace in `s`, if any, is the plain space. */
  predicate OnlySpaces(s: string)
  {
    forall i :: 0 <= i < |s| && IsWhitespace(s[i]) ==> s[i] == ' '
  }

  lemma {:induction false} LettersAppend(a: string, b: string)
    ensures Letters(a + b) == Letters(a) + Letters(b)
  {
    if a != [] {
      assert (a + b)[0] == a[0] && (a + b)[1..] == a[1..] + b;
      LettersAppend(a[1..], b);
    } else {
      assert a + b == b;
    }
  }

  lemma {:induction false} LowerAppend(a: string, b: string)
    ensures Lower(a + b) == Lower(a) + Lower(b)
  {
    if a != [] {
      assert (a + b)[0] == a[0] && (a + b)[1..] == a[1..] + b;
      LowerAppend(a[1..], b);
    } else {
      assert a + b == b;
    }
  }

  /** Removing a character that is not a letter commutes with lowering. */
  lemma {:induction false} RemoveLower(s: string, c: char)
    requires !('A' <= c <= 'Z') && !('a' <= c <= 'z')
    ensures Remove(Lower(s), c) == Lower(Remove(s, c))
  {
    if s != [] {
      RemoveLower(s[1..], c);
      LowerAppend(if s[0] == c then [] else [s[0]], Remove(s[1..], c));
    }
  }

  /** Removing underscores, then spaces, leaves the letters. */
  lemma {:induction false} RemoveSeparators(s: string)
    ensures Remove(Remove(s, '_'), ' ') == Letters(s)
  {
    if s != [] {
      RemoveSeparators(s[1..]);
      var head := if s[0] == '_' then [] else [s[0]];
      assert Remove(s, '_') == head + Remove(s[1..], '_');
      RemoveAppend(head, Remove(s[1..], '_'), ' ');
    }
  }

  lemma {:induction false} RemoveAppend(a: string, b: string, c: char)
    ensures Remove(a + b, c) == Remove(a, c) + Remove(b, c)
  {
    if a != [] {
      assert (a + b)[0] == a[0] && (a + b)[1..] == a[1..] + b;
      RemoveAppend(a[1..], b, c);
    } else {
      assert a + b == b;
    }
  }

  /** A run of spaces has no letters. */
  lemma {:induction false} LettersOfSpaces(s: string)
    requires forall i :: 0 <= i < |s| ==> s[i] == ' '
    ensures Letters(s) == []
  {
    if s != [] {
      LettersOfSpaces(s[1..]);
    }
  }

  lemma {:induction false} StripLeftKeepsLetters(s: string)
    requires OnlySpaces(s)
    ensures Letters(StripLeft(s)) == Letters(s) && OnlySpaces(StripLeft(s))
  {
    if s != [] && IsWhitespace(s[0]) {
      assert s[0] == ' ';
      assert OnlySpaces(s[1..]) by {
        forall i | 0 <= i < |s[1..]| && IsWhitespace(s[1..][i])
          ensures s[1..][i] == ' '
        {
          assert s[1..][i] == s[i + 1];
        }
      }
      StripLeftKeepsLetters(s[1..]);
    }
  }

  lemma {:induction false} StripRightKeepsLetters(s: string)
    requires OnlySpaces(s)
    ensures Letters(StripRight(s)) == Letters(s)
  {
    if s != [] && IsWhitespace(s[|s| - 1]) {
      var init := s[..|s| - 1];
      assert s == init + [' '];
      assert OnlySpaces(init) by {
        forall i | 0 <= i < |init| && IsWhitespace(init[i])
          ensures init[i] == ' '
        {
          assert init[i] == s[i];
        }
      }
      StripRightKeepsLetters(init);
      LettersAppend(init, [' ']);
    }
  }

  /** Stripping text whose only whitespace is the space loses no letters. */
  lemma StripKeepsLetters(s: string)
    requires OnlySpaces(s)
    ensures Letters(Strip(s)) == Letters(s)
  {
    StripLeftKeepsLetters(s);
    StripRightKeepsLetters(StripLeft(s));
  }

  /**
   * For text whose only whitespace is the space, the canonical form is its
   * letters in lower case: surrounding spaces, inner spaces, underscores and
   * letter case make no difference.
   */
  lemma CanonicalIsLowerLetters(s: string)
    requires OnlySpaces(s)
    ensures Canonical(s) == Lower(Letters(s))
  {
    var m := Strip(s);
    StripKeepsLetters(s);
    RemoveLower(m, '_');
    RemoveLower(Remove(m, '_'), ' ');
    RemoveSeparators(m);
  }

  /** The room type a run of lower-case letters spells, if any. */
  function Spelled(letters: string): (r: Option<RoomType>)
  {
    if letters in SeaViewSpellings then Some(SeaView)
    else if letters in GardenViewSpellings then Some(GardenView)
    else None
  }

  /**
   * `_normalize_room_type` on text whose only whitespace is the space: the
   * room type its lower-case letters spell, so that spacing, underscores and
   * case never change the answer.
   */
  lemma NormalizeBySpelling(s: string)
    requires OnlySpaces(s)
    ensures NormalizeRoomType(Some(s)) == Spelled(Lower(Letters(s)))
  {
    if s == "" {
      assert Lower(Letters(s)) == [];
      assert [] !in SeaViewSpellings + GardenViewSpellings;
    } else {
      CanonicalIsLowerLetters(s);
    }
  }

  // ---------------------------------------------------------------------
  // Validation (lines 66-91)
  // ---------------------------------------------------------------------

  const NightsKey := "numberofNights"

  /** Guest name, check-in date and room type all pass their checks. */
  predicate OtherFieldsValid(body: map<string, Json>)
  {
    && Truthy(Get(body, "guestName"))
    && Get(body, "checkInDate").JStr? && ParseDate(Get(body, "checkInDate").s).Some?
    && Get(body, "roomType").JStr? && NormalizeRoomType(Some(Get(body, "roomType").s)).Some?
  }

  /** Replacing the nights field leaves the other three fields as they were. */
  lemma OtherFieldsKept(body: map<string, Json>, v: Json)
    requires OtherFieldsValid(body)
    ensures OtherFieldsValid(body[NightsKey := v])
    ensures Get(body[NightsKey := v], NightsKey) == v
  {
    assert Get(body[NightsKey := v], "guestName") == Get(body, "guestName");
    assert Get(body[NightsKey := v], "checkInDate") == Get(body, "checkInDate");
    assert Get(body[NightsKey := v], "roomType") == Get(body, "roomType");
  }

  /**
   * With every other field acceptable, the verdict depends on the nights value
   * alone: falsy is a missing field, no integer or one below 1 is not a
   * positive integer, above 24 is too many, and 1..24 is accepted as is.
   */
  lemma NightsDecides(body: map<string, Json>)
    requires OtherFieldsValid(body)
    ensures var v := Get(body, NightsKey); var r := ValidateRequest(body);
      && (!Truthy(v) ==> r == Stop(Response(400, Error(MsgMissingFields))))
      && (Truthy(v) && (IntOfJson(v).None? || IntOfJson(v).value <= 0) ==> r == Stop(Response(400, Error(MsgBadNights))))
      && (Truthy(v) && IntOfJson(v).Some? && IntOfJson(v).value > MaxNights ==> r == Stop(Response(400, Error(MsgTooManyNights))))
      && (r.Next? <==> Truthy(v) && IntOfJson(v).Some? && 1 <= IntOfJson(v).value <= MaxNights)
      && (r.Next? ==> r.value.nights == IntOfJson(v).value)
  {
    var v := Get(body, NightsKey);
    var checkIn := Get(body, "checkInDate");
    var roomType := Get(body, "roomType");
    assert Truthy(checkIn) && Truthy(roomType);
    if Truthy(v) && IntOfJson(v).Some? && 1 <= IntOfJson(v).value <= MaxNights {
      var rt := NormalizeRoomType(Some(roomType.s)).value;
      assert ValidateRequest(body) == Next(Request(Get(body, "guestName"), checkIn.s, IntOfJson(v).value, rt));
    }
  }

  /**
   * A JSON number n is accepted exactly when 1 <= n <= 24; the number 0 is
   * falsy and so is reported as a missing field, a negative number fails the
   * positive-integer check and 25 or more the too-many check.
   */
  lemma NumberNights(body: map<string, Json>, n: int)
    requires OtherFieldsValid(body)
    ensures var r := ValidateRequest(body[NightsKey := JNum(n)]);
      && (r.Next? <==> 1 <= n <= MaxNights)
      && (r.Next? ==> r.value.nights == n)
      && (n == 0 ==> r == Stop(Response(400, Error(MsgMissingFields))))
      && (n < 0 ==> r == Stop(Response(400, Error(MsgBadNights))))
      && (n > MaxNights ==> r == Stop(Response(400, Error(MsgTooManyNights))))
  {
    OtherFieldsKept(body, JNum(n));
    NightsDecides(body[NightsKey := JNum(n)]);
  }

  /**
   * Validation sees the nights value only through its truthiness and
   * `int(str(...))`: two values alike in both give the same verdict, whatever
   * the other fields hold.
   */
  lemma NightsSeenAlike(body: map<string, Json>, v1: Json, v2: Json)
    requires Truthy(v1) == Truthy(v2) && IntOfJson(v1) == IntOfJson(v2)
    ensures ValidateRequest(body[NightsKey := v1]) == ValidateRequest(body[NightsKey := v2])
  {
    var b1, b2 := body[NightsKey := v1], body[NightsKey := v2];
    assert Get(b1, "guestName") == Get(b2, "guestName");
    assert Get(b1, "checkInDate") == Get(b2, "checkInDate");
    assert Get(b1, "roomType") == Get(b2, "roomType");
    assert Get(b1, NightsKey) == v1 && Get(b2, NightsKey) == v2;
  }

  /** The decimal text of a non-zero number is judged exactly like the number. */
  lemma TextOfNumberNights(body: map<string, Json>, n: int)
    requires n != 0
    ensures ValidateRequest(body[NightsKey := JStr(IntToString(n))]) == ValidateRequest(body[NightsKey := JNum(n)])
  {
    ParseIntToString(n);
    NightsSeenAlike(body, JStr(IntToString(n)), JNum(n));
  }

  /**
   * Text that is not the text of a positive integer fails the
   * positive-integer check; in particular "0", which unlike the number 0 is
   * not falsy and so is not reported as missing.
   */
  lemma TextNotPositiveNights(body: map<string, Json>, s: string)
    requires OtherFieldsValid(body)
    requires s != ""
    requires ParseInt(s).None? || ParseInt(s).value <= 0
    ensures ValidateRequest(body[NightsKey := JStr(s)]) == Stop(Response(400, Error(MsgBadNights)))
  {
    OtherFieldsKept(body, JStr(s));
    NightsDecides(body[NightsKey := JStr(s)]);
  }

  /**
   * The text "0" is an integer, but not a positive one, so it gets the
   * positive-integer 400; the number 0 is falsy and gets the missing-field 400.
   */
  lemma ZeroTextIsNotPositive(body: map<string, Json>)
    requires OtherFieldsValid(body)
    ensures ValidateRequest(body[NightsKey := JStr("0")]) == Stop(Response(400, Error(MsgBadNights)))
    ensures ValidateRequest(body[NightsKey := JNum(0)]) == Stop(Response(400, Error(MsgMissingFields)))
  {
    ParseIntToString(0);
    assert IntToString(0) == "0";
    TextNotPositiveNights(body, "0");
    NumberNights(body, 0);
  }

  /**
   * The order of the checks at lines 71-91: any falsy field is the
   * missing-field 400 whatever the others hold; then the nights; then a
   * check-in date that does not parse, even when the room type is bad too;
   * then a room type that is not text raises AttributeError at `.strip()`;
   * then a room type that normalises to None is the room-type 400.
   */
  lemma ValidationOrder(body: map<string, Json>)
    ensures var g, c, n, t := Get(body, "guestName"), Get(body, "checkInDate"), Get(body, NightsKey), Get(body, "roomType");
      var r := ValidateRequest(body);
      var present := Truthy(g) && Truthy(c) && Truthy(n) && Truthy(t);
      var nightsOk := IntOfJson(n).Some? && 1 <= IntOfJson(n).value <= MaxNights;
      var dateOk := c.JStr? && ParseDate(c.s).Some?;
      && (!present <==> r == Stop(Response(400, Error(MsgMissingFields))))
      && (present && (IntOfJson(n).None? || IntOfJson(n).value <= 0) ==> r == Stop(Response(400, Error(MsgBadNights))))
      && (present && IntOfJson(n).Some? && IntOfJson(n).value > MaxNights ==> r == Stop(Response(400, Error(MsgTooManyNights))))
      && (present && nightsOk && !dateOk ==> r == Stop(Response(400, Error(MsgBadDate))))
      && (present && nightsOk && dateOk && !t.JStr? ==> r == Stop(Raised("AttributeError")))
      && (present && nightsOk && dateOk && t.JStr? && NormalizeRoomType(Some(t.s)).None? ==>
            r == Stop(Response(400, Error(MsgBadRoomType))))
  {
  }
}
