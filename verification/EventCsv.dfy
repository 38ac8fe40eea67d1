// The CSV row of an event.
module EventCsv {
  import opened Csv
  import opened Numbers

  datatype Event = Event(eventId: nat, eventTime: int, serverTime: int, eventType: nat,
                         id1: nat, id2: nat, id3: nat, flags: nat, eventData: string)

  // The payload is the ninth field, and the last one.
  const PAYLOAD: nat := 8

  function NumberFields(e: Event): (fields: seq<string>)
    ensures |fields| == PAYLOAD
  {
    [PrintNat(e.eventId), PrintInt(e.eventTime), PrintInt(e.serverTime), PrintNat(e.eventType),
     PrintNat(e.id1), PrintNat(e.id2), PrintNat(e.id3), PrintNat(e.flags)]
  }

  function Row(e: Event): string {
    Joined(NumberFields(e) + [e.eventData])
  }

  // A row with too few fields changes nothing.
  function FromFields(e: Event, fields: seq<string>): Event {
    if |fields| > PAYLOAD then
      Event(ParseNat(fields[0]), ParseInt(fields[1]), ParseInt(fields[2]), ParseNat(fields[3]),
            ParseNat(fields[4]), ParseNat(fields[5]), ParseNat(fields[6]), ParseNat(fields[7]), fields[PAYLOAD])
    else e
  }

  function Parsed(e: Event, csv: string): Event {
    FromFields(e, Fields(CString(csv)))
  }

  lemma NumbersArePlain(e: Event)
    ensures forall k :: 0 <= k < PAYLOAD ==> NoSeparator(NumberFields(e)[k]) && NoTerminator(NumberFields(e)[k])
  {
    PrintedIsPlain(e.eventTime);
    PrintedIsPlain(e.serverTime);
  }

  // The row of every event is parsed back with all its numbers; the payload comes back up to
  // its first terminator, semicolon or newline.
  lemma RowRoundTrip(e: Event, f: Event)
    ensures Parsed(f, Row(e)) == e.(eventData := Fields(CString(e.eventData))[0])
  {
    NumbersArePlain(e);
    FieldsOfRow(NumberFields(e), e.eventData);
    NatRoundTrip(e.eventId, "");
    IntRoundTrip(e.eventTime);
    IntRoundTrip(e.serverTime);
    NatRoundTrip(e.eventType, "");
    NatRoundTrip(e.id1, "");
    NatRoundTrip(e.id2, "");
    NatRoundTrip(e.id3, "");
    NatRoundTrip(e.flags, "");
  }

  // How many separators the payload may have for the row to fit the array of fields.
  lemma RowFits(e: Event)
    ensures Separators(CString(Row(e))) < 100 <==> Separators(CString(e.eventData)) <= 91
  {
    NumbersArePlain(e);
    FieldsOfRow(NumberFields(e), e.eventData);
    assert |Fields(CString(Row(e)))| == PAYLOAD + |Fields(CString(e.eventData))|;
  }

  // The event is restored completely if and only if its payload has none of the three.
  lemma RowRoundTripIsExact(e: Event, f: Event)
    ensures Parsed(f, Row(e)) == e <==> NoSeparator(e.eventData) && NoTerminator(e.eventData)
  {
    RowRoundTrip(e, f);
    FirstFieldOfText(e.eventData);
  }

  class EventInfo {
    var mEventId: nat
    var mEventTime: int
    var mServerTime: int
    var mType: nat
    var mId1: nat
    var mId2: nat
    var mId3: nat
    var mFlags: nat
    var mEventData: string

    ghost function Abstract(): Event
      reads this
    {
      Event(mEventId, mEventTime, mServerTime, mType, mId1, mId2, mId3, mFlags, mEventData)
    }

    constructor (e: Event)
      ensures Abstract() == e
    {
      mEventId, mEventTime, mServerTime, mType := e.eventId, e.eventTime, e.serverTime, e.eventType;
      mId1, mId2, mId3, mFlags, mEventData := e.id1, e.id2, e.id3, e.flags, e.eventData;
    }

    method GetCsv() returns (csv: string)
      ensures csv == Row(Abstract())
    {
      csv := PrintNat(mEventId) + ";" + (PrintInt(mEventTime) + ";" + (PrintInt(mServerTime) + ";"
             + (PrintNat(mType) + ";" + (PrintNat(mId1) + ";" + (PrintNat(mId2) + ";"
             + (PrintNat(mId3) + ";" + (PrintNat(mFlags) + ";" + mEventData)))))));
      JoinedNine(PrintNat(mEventId), PrintInt(mEventTime), PrintInt(mServerTime), PrintNat(mType), PrintNat(mId1),
                 PrintNat(mId2), PrintNat(mId3), PrintNat(mFlags), mEventData);
    }

    // A row that runs over the array of field pointers sets nothing here; what the program does
    // then is undefined.
    method SetCsv(csv: string) returns (inBounds: bool)
      modifies this
      ensures inBounds <==> Separators(CString(csv)) < 100
      ensures Abstract() == if inBounds then Parsed(old(Abstract()), csv) else old(Abstract())
    {
      var fields := SplitRow(csv);
      inBounds := fields.Some?;
      if inBounds && |fields.value| > PAYLOAD {
        var field := fields.value;
        mEventId := ParseNat(field[0]);
        mEventTime := ParseInt(field[1]);
        mServerTime := ParseInt(field[2]);
        mType := ParseNat(field[3]);
        mId1 := ParseNat(field[4]);
        mId2 := ParseNat(field[5]);
        mId3 := ParseNat(field[6]);
        mFlags := ParseNat(field[7]);
        mEventData := field[8];
      }
    }
  }

  lemma JoinedNine(a: string, b: string, c: string, d: string, e: string, f: string, g: string, h: string, i: string)
    ensures Joined([a, b, c, d, e, f, g, h] + [i])
         == a + ";" + (b + ";" + (c + ";" + (d + ";" + (e + ";" + (f + ";" + (g + ";" + (h + ";" + i)))))))
  {
    assert [a, b, c, d, e, f, g, h] + [i] == [a, b, c, d, e, f, g, h, i];
    JoinedStep(h, [i]);
    JoinedStep(g, [h, i]);
    JoinedStep(f, [g, h, i]);
    JoinedStep(e, [f, g, h, i]);
    JoinedStep(d, [e, f, g, h, i]);
    JoinedStep(c, [d, e, f, g, h, i]);
    JoinedStep(b, [c, d, e, f, g, h, i]);
    JoinedStep(a, [b, c, d, e, f, g, h, i]);
  }

  lemma JoinedStep(a: string, rest: seq<string>)
    requires |rest| > 0
    ensures Joined([a] + rest) == a + ";" + Joined(rest)
  {
    assert ([a] + rest)[1..] == rest;
  }

  // ---- The places of the fields ----

  // Where the row has each field of the event.
  lemma RowPlaces(e: Event)
    ensures |Fields(CString(Row(e)))| >= 9
    ensures var f := Fields(CString(Row(e)));
            && f[0] == PrintNat(e.eventId) && f[1] == PrintInt(e.eventTime) && f[2] == PrintInt(e.serverTime)
            && f[3] == PrintNat(e.eventType) && f[4] == PrintNat(e.id1) && f[5] == PrintNat(e.id2)
            && f[6] == PrintNat(e.id3) && f[7] == PrintNat(e.flags) && f[8] <= e.eventData
  {
    var rest := Fields(CString(e.eventData));
    NumbersArePlain(e);
    FieldsOfRow(NumberFields(e), e.eventData);
    FirstFieldOfText(e.eventData);
    NumberPlaces(e, rest);
  }

  lemma NumberPlaces(e: Event, rest: seq<string>)
    requires |rest| > 0
    ensures var f := NumberFields(e) + rest;
            && f[0] == PrintNat(e.eventId) && f[1] == PrintInt(e.eventTime) && f[2] == PrintInt(e.serverTime)
            && f[3] == PrintNat(e.eventType) && f[4] == PrintNat(e.id1) && f[5] == PrintNat(e.id2)
            && f[6] == PrintNat(e.id3) && f[7] == PrintNat(e.flags) && f[8] == rest[0]
  {
  }

  // Which field of a row, of whatever length, each field of the event is set from.
  lemma ParsedPlaces(d: Event, csv: string)
    ensures |Fields(CString(csv))| < 9 ==> Parsed(d, csv) == d
    ensures var f, e := Fields(CString(csv)), Parsed(d, csv);
            |f| >= 9 ==>
              && e.eventId == ParseNat(f[0]) && e.eventTime == ParseInt(f[1]) && e.serverTime == ParseInt(f[2])
              && e.eventType == ParseNat(f[3]) && e.id1 == ParseNat(f[4]) && e.id2 == ParseNat(f[5])
              && e.id3 == ParseNat(f[6]) && e.flags == ParseNat(f[7]) && e.eventData == f[8]
  {
  }
}
