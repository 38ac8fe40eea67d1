// The CSV row of a content record.
module ContentCsv {
  import opened Wrappers
  import opened Csv
  import opened Numbers

  // The fields a row carries, and the time that follows from the forecast time text.
  datatype Content = Content(
    fileId: nat, messageIndex: nat, fileType: nat, filePosition: nat, messageSize: nat, producerId: nat,
    generationId: nat, forecastTime: string, forecastTimeUTC: int, fmiParameterId: nat, fmiParameterName: string,
    aggregationId: int, aggregationPeriod: int, processingTypeId: int, processingTypeValue1: real,
    processingTypeValue2: real, fmiParameterLevelId: nat, parameterLevel: int, forecastType: int,
    forecastNumber: int, flags: nat, sourceId: nat, geometryId: int, modificationTime: int, deletionTime: int,
    storageId: nat)

  // The buffers of snprintf and of setFmiParameterName.
  const ROW_LENGTH: nat := 1000

  const NAME_LENGTH: nat := 200

  // ---- Upper case ----

  function UpperChar(c: char): char {
    if 'a' <= c <= 'z' then c - 'a' + 'A' else c
  }

  function Upper(s: string): (r: string)
    ensures |r| == |s|
  {
    seq(|s|, k requires 0 <= k < |s| => UpperChar(s[k]))
  }

  predicate IsUpper(s: string) {
    forall k :: 0 <= k < |s| ==> !('a' <= s[k] <= 'z')
  }

  lemma UpperKeepsUpper(s: string)
    ensures Upper(s) == s <==> IsUpper(s)
  {
    if Upper(s) == s {
      assert forall k :: 0 <= k < |s| ==> s[k] == Upper(s)[k];
    }
  }

  // ---- Printing ----

  // Seven numbers, a gap, the forecast time, and so on: the grib fields and the server flags
  // are no longer written.
  function LeadingFields(c: Content): (fields: seq<string>)
    ensures |fields| == 30
  {
    IdFields(c) + ParameterFields(c) + LevelFields(c)
  }

  function IdFields(c: Content): seq<string> {
    [PrintNat(c.fileId), PrintNat(c.messageIndex), PrintNat(c.fileType), PrintNat(c.filePosition),
     PrintNat(c.messageSize), PrintNat(c.producerId), PrintNat(c.generationId), "", c.forecastTime]
  }

  function ParameterFields(c: Content): seq<string> {
    [PrintNat(c.fmiParameterId), c.fmiParameterName, PrintInt(c.aggregationId), PrintInt(c.aggregationPeriod),
     PrintInt(c.processingTypeId), PrintFixed(c.processingTypeValue1), PrintFixed(c.processingTypeValue2),
     PrintNat(c.fmiParameterLevelId)]
  }

  function LevelFields(c: Content): seq<string> {
    ["", "", PrintInt(c.parameterLevel), "", "", PrintInt(c.forecastType), PrintInt(c.forecastNumber), "",
     PrintNat(c.flags), PrintNat(c.sourceId), PrintInt(c.geometryId), PrintInt(c.modificationTime),
     PrintInt(c.deletionTime)]
  }

  function FullRow(c: Content): string {
    Joined(LeadingFields(c) + [PrintNat(c.storageId)])
  }

  // The buffer cuts a row that is too long.
  function Row(c: Content): (row: string)
    ensures |row| < ROW_LENGTH
  {
    if |FullRow(c)| < ROW_LENGTH then FullRow(c) else FullRow(c)[..ROW_LENGTH - 1]
  }

  // ---- Parsing ----

  // A forecast time that is not a time breaks the parsing off, with some fields set already.
  datatype Parsing = Done(content: Content) | Broken(content: Content)

  function FromFields(c: Content, fields: seq<string>, utc: string -> Option<int>): Parsing {
    if |fields| < 28 then Done(c)
    else
      var started := WithIds(c, fields);
      if utc(fields[8]).None? then Broken(started)
      else Done(WithLevel(WithParameter(started.(forecastTimeUTC := utc(fields[8]).value), fields), fields))
  }

  function WithIds(c: Content, fields: seq<string>): Content
    requires |fields| >= 28
  {
    c.(fileId := ParseNat(fields[0]), messageIndex := ParseNat(fields[1]), fileType := ParseNat(fields[2]),
       filePosition := ParseNat(fields[3]), messageSize := ParseNat(fields[4]), producerId := ParseNat(fields[5]),
       generationId := ParseNat(fields[6]), forecastTime := fields[8])
  }

  function WithParameter(c: Content, fields: seq<string>): Content
    requires |fields| >= 28
  {
    c.(fmiParameterId := ParseNat(fields[9]), fmiParameterName := Upper(fields[10]),
       aggregationId := ParseInt(fields[11]), aggregationPeriod := ParseInt(fields[12]),
       processingTypeId := ParseInt(fields[13]), processingTypeValue1 := ParseReal(fields[14]),
       processingTypeValue2 := ParseReal(fields[15]), fmiParameterLevelId := ParseNat(fields[16]))
  }

  // The last three fields are optional.
  function WithLevel(c: Content, fields: seq<string>): Content
    requires |fields| >= 28
  {
    c.(parameterLevel := ParseInt(fields[19]), forecastType := ParseInt(fields[22]),
       forecastNumber := ParseInt(fields[23]), flags := ParseNat(fields[25]), sourceId := ParseNat(fields[26]),
       geometryId := ParseInt(fields[27]),
       modificationTime := if |fields| > 28 then ParseInt(fields[28]) else c.modificationTime,
       deletionTime := if |fields| > 29 then ParseInt(fields[29]) else c.deletionTime,
       storageId := if |fields| > 30 then ParseNat(fields[30]) else c.storageId)
  }

  function Parsed(c: Content, csv: string, utc: string -> Option<int>): Parsing {
    FromFields(c, Fields(CString(csv)), utc)
  }

  // ---- The round trip ----

  // What the row keeps of the record.
  function Kept(c: Content): Content {
    c.(fmiParameterName := Upper(c.fmiParameterName),
       processingTypeValue1 := InMillionths(Millionths(c.processingTypeValue1)),
       processingTypeValue2 := InMillionths(Millionths(c.processingTypeValue2)))
  }

  predicate Plain(s: string) {
    NoSeparator(s) && NoTerminator(s)
  }

  ghost predicate AllPlain(fields: seq<string>) {
    forall k :: 0 <= k < |fields| ==> NoSeparator(fields[k]) && NoTerminator(fields[k])
  }

  lemma IdFieldsArePlain(c: Content)
    ensures AllPlain(IdFields(c)[..8]) && (Plain(c.forecastTime) ==> AllPlain(IdFields(c)))
  {
    PrintedIsPlain(c.fileId);
    PrintedIsPlain(c.messageIndex);
    PrintedIsPlain(c.fileType);
    PrintedIsPlain(c.filePosition);
    PrintedIsPlain(c.messageSize);
    PrintedIsPlain(c.producerId);
    PrintedIsPlain(c.generationId);
  }

  lemma ParameterFieldsArePlain(c: Content)
    requires Plain(c.fmiParameterName)
    ensures AllPlain(ParameterFields(c))
  {
    PrintedIsPlain(c.fmiParameterId);
    PrintedIsPlain(c.aggregationId);
    PrintedIsPlain(c.aggregationPeriod);
    PrintedIsPlain(c.processingTypeId);
    PrintedMillionthsArePlain(Millionths(c.processingTypeValue1));
    PrintedMillionthsArePlain(Millionths(c.processingTypeValue2));
    PrintedIsPlain(c.fmiParameterLevelId);
  }

  lemma LevelFieldsArePlain(c: Content)
    ensures AllPlain(LevelFields(c))
  {
    PrintedIsPlain(c.parameterLevel);
    PrintedIsPlain(c.forecastType);
    PrintedIsPlain(c.forecastNumber);
    PrintedIsPlain(c.flags);
    PrintedIsPlain(c.sourceId);
    PrintedIsPlain(c.geometryId);
    PrintedIsPlain(c.modificationTime);
    PrintedIsPlain(c.deletionTime);
  }

  lemma PlainSum(a: seq<string>, b: seq<string>)
    requires AllPlain(a) && AllPlain(b)
    ensures AllPlain(a + b)
  {
  }

  lemma FieldsArePlain(c: Content)
    requires Plain(c.forecastTime) && Plain(c.fmiParameterName)
    ensures AllPlain(LeadingFields(c))
    ensures Plain(PrintNat(c.storageId))
  {
    IdFieldsArePlain(c);
    ParameterFieldsArePlain(c);
    LevelFieldsArePlain(c);
    PlainSum(IdFields(c), ParameterFields(c));
    PlainSum(IdFields(c) + ParameterFields(c), LevelFields(c));
    PrintedIsPlain(c.storageId);
  }

  // The texts are free of separators and terminators, and the row fits its buffer, or loses no
  // more than a zero at its end.
  predicate ReadsBack(c: Content) {
    && Plain(c.forecastTime) && Plain(c.fmiParameterName)
    && (|FullRow(c)| < ROW_LENGTH || (|FullRow(c)| == ROW_LENGTH && c.storageId == 0))
  }

  // A row that is cut in its last field still has all the others.
  lemma RowHasItsFields(c: Content, n: nat)
    requires Plain(c.forecastTime) && Plain(c.fmiParameterName) && n <= |PrintNat(c.storageId)|
    requires Row(c) == Lead(LeadingFields(c)) + PrintNat(c.storageId)[..n]
    ensures Fields(CString(Row(c))) == LeadingFields(c) + [PrintNat(c.storageId)[..n]]
  {
    var last := PrintNat(c.storageId)[..n];
    FieldsArePlain(c);
    JoinedLeads(LeadingFields(c), last);
    FieldsOfRow(LeadingFields(c), last);
    CStringHasNoTerminator(last);
    FieldsOfOne(last);
  }

  // The row is whole, cut in its last field, or cut before it.
  lemma RowIsCut(c: Content)
    ensures var lead, last := Lead(LeadingFields(c)), PrintNat(c.storageId);
            && FullRow(c) == lead + last
            && (if |FullRow(c)| < ROW_LENGTH then Row(c) == lead + last[..|last|]
                else if |lead| < ROW_LENGTH then
                  && 0 <= ROW_LENGTH - 1 - |lead| < |last|
                  && Row(c) == lead + last[..ROW_LENGTH - 1 - |lead|]
                else Row(c) == lead[..ROW_LENGTH - 1])
  {
    JoinedLeads(LeadingFields(c), PrintNat(c.storageId));
  }

  lemma IdsAreReadBack(c: Content, d: Content, fields: seq<string>)
    requires |fields| >= 28 && fields[..9] == IdFields(c)
    ensures WithIds(d, fields)
         == d.(fileId := c.fileId, messageIndex := c.messageIndex, fileType := c.fileType,
             filePosition := c.filePosition,
               messageSize := c.messageSize, producerId := c.producerId, generationId := c.generationId,
               forecastTime := c.forecastTime)
  {
    var f := fields[..9];
    assert fields[0] == f[0] && fields[1] == f[1] && fields[2] == f[2] && fields[3] == f[3] && fields[4] == f[4];
    assert fields[5] == f[5] && fields[6] == f[6] && fields[8] == f[8];
    NatRoundTrip(c.fileId, "");
    NatRoundTrip(c.messageIndex, "");
    NatRoundTrip(c.fileType, "");
    NatRoundTrip(c.filePosition, "");
    NatRoundTrip(c.messageSize, "");
    NatRoundTrip(c.producerId, "");
    NatRoundTrip(c.generationId, "");
  }

  lemma ParameterIsReadBack(c: Content, d: Content, fields: seq<string>)
    requires |fields| >= 28 && fields[9..17] == ParameterFields(c)
    ensures WithParameter(d, fields)
         == d.(fmiParameterId := c.fmiParameterId, fmiParameterName := Upper(c.fmiParameterName),
               aggregationId := c.aggregationId, aggregationPeriod := c.aggregationPeriod,
               processingTypeId := c.processingTypeId,
               processingTypeValue1 := InMillionths(Millionths(c.processingTypeValue1)),
               processingTypeValue2 := InMillionths(Millionths(c.processingTypeValue2)),
               fmiParameterLevelId := c.fmiParameterLevelId)
  {
    var f := fields[9..17];
    assert fields[9] == f[0] && fields[10] == f[1] && fields[11] == f[2] && fields[12] == f[3];
    assert fields[13] == f[4] && fields[14] == f[5] && fields[15] == f[6] && fields[16] == f[7];
    NatRoundTrip(c.fmiParameterId, "");
    IntRoundTrip(c.aggregationId);
    IntRoundTrip(c.aggregationPeriod);
    IntRoundTrip(c.processingTypeId);
    FixedRoundTrip(c.processingTypeValue1);
    FixedRoundTrip(c.processingTypeValue2);
    NatRoundTrip(c.fmiParameterLevelId, "");
  }

  lemma LevelIsReadBack(c: Content, d: Content, fields: seq<string>)
    requires |fields| == 31 && fields[17..30] == LevelFields(c) && ParseNat(fields[30]) == c.storageId
    ensures WithLevel(d, fields)
         == d.(parameterLevel := c.parameterLevel, forecastType := c.forecastType, forecastNumber := c.forecastNumber,
               flags := c.flags, sourceId := c.sourceId, geometryId := c.geometryId,
               modificationTime := c.modificationTime, deletionTime := c.deletionTime, storageId := c.storageId)
  {
    var f := fields[17..30];
    assert fields[19] == f[2] && fields[22] == f[5] && fields[23] == f[6] && fields[25] == f[8] && fields[26] == f[9];
    assert fields[27] == f[10] && fields[28] == f[11] && fields[29] == f[12];
    IntRoundTrip(c.parameterLevel);
    IntRoundTrip(c.forecastType);
    IntRoundTrip(c.forecastNumber);
    NatRoundTrip(c.flags, "");
    NatRoundTrip(c.sourceId, "");
    IntRoundTrip(c.geometryId);
    IntRoundTrip(c.modificationTime);
    IntRoundTrip(c.deletionTime);
  }

  lemma FieldsRoundTrip(c: Content, d: Content, utc: string -> Option<int>, last: string)
    requires utc(c.forecastTime) == Some(c.forecastTimeUTC) && ParseNat(last) == c.storageId
    ensures FromFields(d, LeadingFields(c) + [last], utc) == Done(Kept(c))
  {
    var fields := LeadingFields(c) + [last];
    assert fields[..9] == IdFields(c) && fields[9..17] == ParameterFields(c) && fields[17..30] == LevelFields(c);
    assert fields[8] == fields[..9][8];
    var started := WithIds(d, fields);
    var timed := started.(forecastTimeUTC := c.forecastTimeUTC);
    IdsAreReadBack(c, d, fields);
    ParameterIsReadBack(c, timed, fields);
    LevelIsReadBack(c, WithParameter(timed, fields), fields);
  }

  // What is read of the row: all fields, and enough of the last one.
  lemma RowIsRead(c: Content) returns (last: string)
    requires ReadsBack(c)
    ensures Fields(CString(Row(c))) == LeadingFields(c) + [last] && ParseNat(last) == c.storageId
  {
    RowIsCut(c);
    var n := |PrintNat(c.storageId)|;
    NatRoundTrip(c.storageId, "");
    if |FullRow(c)| < ROW_LENGTH {
      RowHasItsFields(c, n);
      last := PrintNat(c.storageId)[..n];
      assert last == PrintNat(c.storageId);
    } else {
      RowHasItsFields(c, 0);
      last := PrintNat(c.storageId)[..0];
    }
  }

  // The row restores every printed field, the name in upper case and the two values to six
  // decimals, when the two texts are plain and the row fits. It also keeps within the array of
  // field pointers.
  lemma RowRoundTrip(c: Content, d: Content, utc: string -> Option<int>)
    requires ReadsBack(c) && utc(c.forecastTime) == Some(c.forecastTimeUTC)
    ensures Parsed(d, Row(c), utc) == Done(Kept(c))
    ensures var read := Fields(CString(Row(c))); |read| == 31 && read[10] == c.fmiParameterName
  {
    var last := RowIsRead(c);
    FieldsRoundTrip(c, d, utc, last);
    assert LeadingFields(c)[10] == c.fmiParameterName;
  }

  // For every record: the row restores it in this way, whatever the record parsed into held
  // before, if and only if the texts are plain, the row fits, and the time is the one the
  // text stands for.
  lemma RowRoundTripIsExact(c: Content, utc: string -> Option<int>)
    ensures (forall d :: Parsed(d, Row(c), utc) == Done(Kept(c)))
       <==> ReadsBack(c) && utc(c.forecastTime) == Some(c.forecastTimeUTC)
  {
    if !ReadsBack(c) {
      var d := Kept(c).(forecastTime := c.forecastTime + ";", storageId := c.storageId + 1);
      RowIsNotReadBack(c);
      assert Parsed(d, Row(c), utc) != Done(Kept(c));
    } else if utc(c.forecastTime) == Some(c.forecastTimeUTC) {
      forall d ensures Parsed(d, Row(c), utc) == Done(Kept(c)) {
        RowRoundTrip(c, d, utc);
      }
    } else {
      var last := RowIsRead(c);
      assert (LeadingFields(c) + [last])[8] == c.forecastTime;
      assert Parsed(c, Row(c), utc) != Done(Kept(c));
    }
  }

  // One of the texts or the storage id is lost.
  lemma RowIsNotReadBack(c: Content)
    requires !ReadsBack(c)
    ensures var read := Fields(CString(Row(c)));
            || |read| <= 30
            || read[8] != c.forecastTime
            || |read[10]| < |c.fmiParameterName|
            || ParseNat(read[30]) != c.storageId
  {
    if !Plain(c.forecastTime) {
      TimeIsNotReadBack(c);
    } else if !Plain(c.fmiParameterName) {
      NameIsNotReadBack(c);
    } else {
      LastIsNotReadBack(c);
    }
  }

  lemma TextsOfRow(c: Content)
    ensures var fields := LeadingFields(c) + [PrintNat(c.storageId)];
            && FullRow(c) == Joined(fields)
            && (forall k :: 0 <= k < 8 ==> Plain(fields[k])) && fields[8] == c.forecastTime
            && Plain(fields[9]) && fields[10] == c.fmiParameterName
  {
    var fields := LeadingFields(c) + [PrintNat(c.storageId)];
    IdFieldsArePlain(c);
    PrintedIsPlain(c.fmiParameterId);
    assert fields[..8] == IdFields(c)[..8];
    forall k | 0 <= k < 8 ensures Plain(fields[k]) {
      assert fields[k] == fields[..8][k];
    }
  }

  // Of a text that is not plain less is read, and a cut row does not add to it.
  lemma LessIsRead(c: Content, fields: seq<string>, n: nat)
    requires n + 1 < |fields| && FullRow(c) == Joined(fields) && !Plain(fields[n])
    requires forall k :: 0 <= k < n ==> Plain(fields[k])
    ensures var read := Fields(CString(Row(c))); |read| <= n || |read[n]| < |fields[n]|
  {
    FieldOfRow(fields, n);
    FirstFieldOfText(fields[n]);
    var length := if |FullRow(c)| < ROW_LENGTH then |FullRow(c)| else ROW_LENGTH - 1;
    FieldsOfCutRow(FullRow(c), length);
    assert Row(c) == FullRow(c)[..length];
  }

  lemma TimeIsNotReadBack(c: Content)
    requires !Plain(c.forecastTime)
    ensures var read := Fields(CString(Row(c))); |read| <= 8 || |read[8]| < |c.forecastTime|
  {
    TextsOfRow(c);
    LessIsRead(c, LeadingFields(c) + [PrintNat(c.storageId)], 8);
  }

  lemma NameIsNotReadBack(c: Content)
    requires Plain(c.forecastTime) && !Plain(c.fmiParameterName)
    ensures var read := Fields(CString(Row(c))); |read| <= 10 || |read[10]| < |c.fmiParameterName|
  {
    TextsOfRow(c);
    LessIsRead(c, LeadingFields(c) + [PrintNat(c.storageId)], 10);
  }

  lemma LastIsNotReadBack(c: Content)
    requires Plain(c.forecastTime) && Plain(c.fmiParameterName) && !ReadsBack(c)
    ensures var read := Fields(CString(Row(c))); |read| <= 30 || ParseNat(read[30]) != c.storageId
  {
    var lead, last := Lead(LeadingFields(c)), PrintNat(c.storageId);
    RowIsCut(c);
    if |lead| < ROW_LENGTH {
      var n := ROW_LENGTH - 1 - |lead|;
      RowHasItsFields(c, n);
      CutDigits(c.storageId, n);
    } else {
      FieldsArePlain(c);
      FieldsBeforeLast(LeadingFields(c), ROW_LENGTH - 1);
    }
  }

  // Nothing is lost if and only if the name is in upper case and six decimals hold both values.
  lemma NothingIsLost(c: Content)
    ensures Kept(c) == c <==>
              && IsUpper(c.fmiParameterName)
              && (c.processingTypeValue1 * 1000000.0).Floor as real == c.processingTypeValue1 * 1000000.0
              && (c.processingTypeValue2 * 1000000.0).Floor as real == c.processingTypeValue2 * 1000000.0
  {
    UpperKeepsUpper(c.fmiParameterName);
    FixedRoundTrip(c.processingTypeValue1);
    FixedRoundTrip(c.processingTypeValue2);
  }

  // A record that is sent as a row, as the data of an event, arrives as it was if and only if
  // nothing is lost in the fields and the row restores it.
  lemma ArrivesUnchanged(c: Content, utc: string -> Option<int>)
    ensures (forall d :: Parsed(d, Row(c), utc) == Done(c))
       <==> Kept(c) == c && ReadsBack(c) && utc(c.forecastTime) == Some(c.forecastTimeUTC)
  {
    RowRoundTripIsExact(c, utc);
    if !ReadsBack(c) {
      var d := c.(forecastTime := c.forecastTime + ";", storageId := c.storageId + 1);
      RowIsNotReadBack(c);
      assert Parsed(d, Row(c), utc) != Done(c);
    } else if utc(c.forecastTime) == Some(c.forecastTimeUTC) {
      RowRoundTrip(c, c, utc);
    } else {
      var last := RowIsRead(c);
      assert (LeadingFields(c) + [last])[8] == c.forecastTime;
      assert Parsed(c, Row(c), utc) != Done(c);
    }
  }

  // ---- The record ----

  class ContentInfo {
    var mContent: Content

    constructor (c: Content)
      ensures mContent == c
    {
      mContent := c;
    }

    // Writes the name letter by letter into a buffer, its terminator included. A name that runs
    // over the buffer sets nothing here; what the program does then is undefined.
    method SetFmiParameterName(name: string) returns (inBounds: bool)
      modifies this
      ensures inBounds <==> |name| < 200
      ensures mContent == if inBounds then old(mContent).(fmiParameterName := Upper(name)) else old(mContent)
    {
      var cstr := name + "\0";
      var buf := new char[NAME_LENGTH](_ => '\0');
      for t := 0 to |name| + 1
        invariant t <= NAME_LENGTH && forall k :: 0 <= k < t ==> buf[k] == UpperChar(cstr[k])
        invariant mContent == old(mContent)
      {
        if t == NAME_LENGTH {
          return false;
        }
        buf[t] := UpperChar(cstr[t]);
      }
      assert buf[..|name|] == Upper(name);
      mContent := mContent.(fmiParameterName := buf[..|name|]);
      return true;
    }

    // A row stays in bounds if the array of field pointers holds it, and the name buffer its
    // eleventh field in case that is reached.
    method SetCsv(csv: string, utc: string -> Option<int>) returns (ok: bool, inBounds: bool)
      modifies this
      ensures inBounds <==>
                && Separators(CString(csv)) < 100
                && (|Fields(CString(csv))| >= 28 && utc(Fields(CString(csv))[8]).Some? ==>
                      |Fields(CString(csv))[10]| < 200)
      ensures inBounds ==> (if ok then Done(mContent) else Broken(mContent)) == Parsed(old(mContent), csv, utc)
    {
      var fields := SplitRow(csv);
      ok, inBounds := true, fields.Some?;
      if fields.None? || |fields.value| < 28 {
        return;
      }
      var field := fields.value;
      mContent := mContent.(
        fileId := ParseNat(field[0]), messageIndex := ParseNat(field[1]), fileType := ParseNat(field[2]),
        filePosition := ParseNat(field[3]), messageSize := ParseNat(field[4]), producerId := ParseNat(field[5]),
        generationId := ParseNat(field[6]));
      mContent := mContent.(forecastTime := field[8]);
      var time := utc(field[8]);
      if time.None? {
        return false, true;
      }
      mContent := mContent.(forecastTimeUTC := time.value, fmiParameterId := ParseNat(field[9]));
      inBounds := SetFmiParameterName(field[10]);
      if !inBounds {
        return;
      }
      mContent := mContent.(
        aggregationId := ParseInt(field[11]), aggregationPeriod := ParseInt(field[12]),
        processingTypeId := ParseInt(field[13]), processingTypeValue1 := ParseReal(field[14]),
        processingTypeValue2 := ParseReal(field[15]), fmiParameterLevelId := ParseNat(field[16]),
        parameterLevel := ParseInt(field[19]), forecastType := ParseInt(field[22]),
        forecastNumber := ParseInt(field[23]), flags := ParseNat(field[25]), sourceId := ParseNat(field[26]),
        geometryId := ParseInt(field[27]));
      if |field| > 28 {
        mContent := mContent.(modificationTime := ParseInt(field[28]));
      }
      if |field| > 29 {
        mContent := mContent.(deletionTime := ParseInt(field[29]));
      }
      if |field| > 30 {
        mContent := mContent.(storageId := ParseNat(field[30]));
      }
    }
  }

  // ---- The places of the fields ----

  // A letter of the name becomes the capital 32 places before it.
  lemma UpperRaises(s: string, k: nat)
    requires k < |s|
    ensures 'a' <= s[k] <= 'z' ==> Upper(s)[k] as int == s[k] as int - 32
    ensures !('a' <= s[k] <= 'z') ==> Upper(s)[k] == s[k]
  {
  }

  // Where the row has each field of the record.
  lemma RowPlaces(c: Content)
    requires ReadsBack(c)
    ensures |Fields(CString(Row(c)))| == 31
    ensures var f := Fields(CString(Row(c)));
            && f[0] == PrintNat(c.fileId) && f[1] == PrintNat(c.messageIndex) && f[2] == PrintNat(c.fileType)
            && f[3] == PrintNat(c.filePosition) && f[4] == PrintNat(c.messageSize)
            && f[5] == PrintNat(c.producerId) && f[6] == PrintNat(c.generationId) && f[7] == ""
            && f[8] == c.forecastTime && f[9] == PrintNat(c.fmiParameterId) && f[10] == c.fmiParameterName
            && f[11] == PrintInt(c.aggregationId) && f[12] == PrintInt(c.aggregationPeriod)
            && f[13] == PrintInt(c.processingTypeId) && f[14] == PrintFixed(c.processingTypeValue1)
            && f[15] == PrintFixed(c.processingTypeValue2) && f[16] == PrintNat(c.fmiParameterLevelId)
            && f[17] == "" && f[18] == "" && f[19] == PrintInt(c.parameterLevel) && f[20] == "" && f[21] == ""
            && f[22] == PrintInt(c.forecastType) && f[23] == PrintInt(c.forecastNumber) && f[24] == ""
            && f[25] == PrintNat(c.flags) && f[26] == PrintNat(c.sourceId) && f[27] == PrintInt(c.geometryId)
            && f[28] == PrintInt(c.modificationTime) && f[29] == PrintInt(c.deletionTime)
  {
    var last := RowIsRead(c);
    var f := LeadingFields(c) + [last];
    var a, b, d := IdFields(c), ParameterFields(c), LevelFields(c);
    assert f[..9] == a && f[9..17] == b && f[17..30] == d;
    assert f[0] == a[0] && f[1] == a[1] && f[2] == a[2] && f[3] == a[3] && f[4] == a[4];
    assert f[5] == a[5] && f[6] == a[6] && f[7] == a[7] && f[8] == a[8];
    assert f[9] == b[0] && f[10] == b[1] && f[11] == b[2] && f[12] == b[3];
    assert f[13] == b[4] && f[14] == b[5] && f[15] == b[6] && f[16] == b[7];
    assert f[17] == d[0] && f[18] == d[1] && f[19] == d[2] && f[20] == d[3] && f[21] == d[4] && f[22] == d[5];
    assert f[23] == d[6] && f[24] == d[7] && f[25] == d[8] && f[26] == d[9] && f[27] == d[10];
    assert f[28] == d[11] && f[29] == d[12];
  }

  // Which field of a row, of whatever length, each field of the record is set from.
  lemma ParsedPlaces(d: Content, csv: string, utc: string -> Option<int>)
    ensures |Fields(CString(csv))| < 28 ==> Parsed(d, csv, utc) == Done(d)
    ensures var f := Fields(CString(csv));
            |f| >= 28 ==>
              var p := Parsed(d, csv, utc);
              var c := p.content;
              && (p.Done? <==> utc(f[8]).Some?)
              && c.fileId == ParseNat(f[0]) && c.messageIndex == ParseNat(f[1]) && c.fileType == ParseNat(f[2])
              && c.filePosition == ParseNat(f[3]) && c.messageSize == ParseNat(f[4])
              && c.producerId == ParseNat(f[5]) && c.generationId == ParseNat(f[6]) && c.forecastTime == f[8]
              && (p.Done? ==>
                    && c.forecastTimeUTC == utc(f[8]).value
                    && c.fmiParameterId == ParseNat(f[9]) && c.aggregationId == ParseInt(f[11])
                    && c.aggregationPeriod == ParseInt(f[12]) && c.processingTypeId == ParseInt(f[13])
                    && c.processingTypeValue1 == ParseReal(f[14]) && c.processingTypeValue2 == ParseReal(f[15])
                    && c.fmiParameterLevelId == ParseNat(f[16]) && c.parameterLevel == ParseInt(f[19])
                    && c.forecastType == ParseInt(f[22]) && c.forecastNumber == ParseInt(f[23])
                    && c.flags == ParseNat(f[25]) && c.sourceId == ParseNat(f[26])
                    && c.geometryId == ParseInt(f[27]) && c.fmiParameterName == Upper(f[10])
                    && c.modificationTime == (if |f| > 28 then ParseInt(f[28]) else d.modificationTime)
                    && c.deletionTime == (if |f| > 29 then ParseInt(f[29]) else d.deletionTime)
                    && c.storageId == if |f| > 30 then ParseNat(f[30]) else d.storageId)
  {
  }

  // The row is what 999 characters hold of all fields.
  lemma RowLength(c: Content)
    ensures Row(c) <= FullRow(c) && |Row(c)| == if |FullRow(c)| < 1000 then |FullRow(c)| else 999
  {
  }
}
