// The content record and the twelve orders a content list can be sorted by.
module ContentOrder {

  // The fields of a content record that the lists and the event handlers use. The
  // parameter name is its interned number; `deleted` is the DeletedContent bit of mFlags.
  datatype ContentInfo = ContentInfo(
    fileId: nat,
    messageIndex: nat,
    filePosition: nat,
    messageSize: nat,
    producerId: nat,
    generationId: nat,
    fmiParameterId: nat,
    fmiParameterName: nat,
    fmiParameterLevelId: nat,
    parameterLevel: int,
    forecastTimeUTC: int,
    forecastType: int,
    forecastNumber: int,
    geometryId: int,
    sourceId: nat,
    deleted: bool)
  {
    // Dispatches on the comparison method; unknown methods fall back to the first order.
    function Compare(comparisonMethod: nat, other: ContentInfo): int {
      match comparisonMethod
      case 1 => CompareFileMessage(other)
      case 2 => CompareFmiIdProducerGenerationLevelTime(other)
      case 3 => CompareFmiNameProducerGenerationLevelTime(other)
      case 4 => CompareStarttimeFileMessage(other)
      case 5 => CompareFmiNameStarttimeLevelFileMessage(other)
      case 6 => CompareFmiIdFmiLevelIdLevelStarttimeFileMessage(other)
      case 7 => CompareStarttimeFmiIdFmiLevelIdLevelFileMessage(other)
      case 8 => CompareStarttimeFmiNameFmiLevelIdLevelFileMessage(other)
      case 9 => CompareGenerationIdStarttimeFileMessage(other)
      case 10 => CompareFmiNameFmiLevelIdLevelStarttimeFileMessage(other)
      case 11 => CompareStarttimeGenerationIdFileMessage(other)
      case 12 => CompareProducerFileMessage(other)
      case _ => CompareFileMessage(other)
    }

    function CompareFileMessage(other: ContentInfo): int {
      var res := NumCompare(fileId, other.fileId);
      if res != 0 then res else NumCompare(messageIndex, other.messageIndex)
    }

    function CompareFmiIdProducerGenerationLevelTime(other: ContentInfo): int {
      var res := NumCompare(producerId, other.producerId);
      if res != 0 then res else
      var res := NumCompare(generationId, other.generationId);
      if res != 0 then res else
      var res := NumCompare(fmiParameterId, other.fmiParameterId);
      if res != 0 then res else
      var res := NumCompare(parameterLevel, other.parameterLevel);
      if res != 0 then res else
      var res := NumCompare(forecastTimeUTC, other.forecastTimeUTC);
      if res != 0 then res else
      var res := NumCompare(geometryId, other.geometryId);
      if res != 0 then res else
      var res := ForecastTypeCompare(forecastType, other.forecastType);
      if res != 0 then res else
      var res := NumCompare(forecastNumber, other.forecastNumber);
      if res != 0 then res else
      var res := NumCompare(fmiParameterLevelId, other.fmiParameterLevelId);
      if res != 0 then res else CompareFileMessage(other)
    }

    function CompareFmiNameProducerGenerationLevelTime(other: ContentInfo): int {
      var res := NumCompare(producerId, other.producerId);
      if res != 0 then res else
      var res := NumCompare(generationId, other.generationId);
      if res != 0 then res else
      var res := NumCompare(fmiParameterName, other.fmiParameterName);
      if res != 0 then res else
      var res := NumCompare(parameterLevel, other.parameterLevel);
      if res != 0 then res else
      var res := NumCompare(forecastTimeUTC, other.forecastTimeUTC);
      if res != 0 then res else
      var res := NumCompare(geometryId, other.geometryId);
      if res != 0 then res else
      var res := ForecastTypeCompare(forecastType, other.forecastType);
      if res != 0 then res else
      var res := NumCompare(forecastNumber, other.forecastNumber);
      if res != 0 then res else
      var res := NumCompare(fmiParameterLevelId, other.fmiParameterLevelId);
      if res != 0 then res else CompareFileMessage(other)
    }

    function CompareStarttimeFileMessage(other: ContentInfo): int {
      var res := NumCompare(forecastTimeUTC, other.forecastTimeUTC);
      if res != 0 then res else CompareFileMessage(other)
    }

    function CompareFmiNameStarttimeLevelFileMessage(other: ContentInfo): int {
      var res := NumCompare(fmiParameterName, other.fmiParameterName);
      if res != 0 then res else
      var res := NumCompare(forecastTimeUTC, other.forecastTimeUTC);
      if res != 0 then res else
      var res := NumCompare(parameterLevel, other.parameterLevel);
      if res != 0 then res else CompareFileMessage(other)
    }

    function CompareFmiIdFmiLevelIdLevelStarttimeFileMessage(other: ContentInfo): int {
      var res := NumCompare(fmiParameterId, other.fmiParameterId);
      if res != 0 then res else
      var res := NumCompare(fmiParameterLevelId, other.fmiParameterLevelId);
      if res != 0 then res else
      var res := NumCompare(parameterLevel, other.parameterLevel);
      if res != 0 then res else
      var res := ForecastTypeCompare(forecastType, other.forecastType);
      if res != 0 then res else
      var res := NumCompare(forecastNumber, other.forecastNumber);
      if res != 0 then res else
      var res := NumCompare(forecastTimeUTC, other.forecastTimeUTC);
      if res != 0 then res else
      var res := NumCompare(geometryId, other.geometryId);
      if res != 0 then res else CompareFileMessage(other)
    }

    function CompareStarttimeFmiIdFmiLevelIdLevelFileMessage(other: ContentInfo): int {
      var res := NumCompare(forecastTimeUTC, other.forecastTimeUTC);
      if res != 0 then res else
      var res := NumCompare(fmiParameterId, other.fmiParameterId);
      if res != 0 then res else
      var res := NumCompare(fmiParameterLevelId, other.fmiParameterLevelId);
      if res != 0 then res else
      var res := NumCompare(parameterLevel, other.parameterLevel);
      if res != 0 then res else
      var res := ForecastTypeCompare(forecastType, other.forecastType);
      if res != 0 then res else
      var res := NumCompare(forecastNumber, other.forecastNumber);
      if res != 0 then res else
      var res := NumCompare(geometryId, other.geometryId);
      if res != 0 then res else CompareFileMessage(other)
    }

    function CompareStarttimeFmiNameFmiLevelIdLevelFileMessage(other: ContentInfo): int {
      var res := NumCompare(forecastTimeUTC, other.forecastTimeUTC);
      if res != 0 then res else
      var res := NumCompare(fmiParameterName, other.fmiParameterName);
      if res != 0 then res else
      var res := NumCompare(fmiParameterLevelId, other.fmiParameterLevelId);
      if res != 0 then res else
      var res := NumCompare(parameterLevel, other.parameterLevel);
      if res != 0 then res else
      var res := ForecastTypeCompare(forecastType, other.forecastType);
      if res != 0 then res else
      var res := NumCompare(forecastNumber, other.forecastNumber);
      if res != 0 then res else
      var res := NumCompare(geometryId, other.geometryId);
      if res != 0 then res else CompareFileMessage(other)
    }

    function CompareGenerationIdStarttimeFileMessage(other: ContentInfo): int {
      var res := NumCompare(generationId, other.generationId);
      if res != 0 then res else
      var res := NumCompare(forecastTimeUTC, other.forecastTimeUTC);
      if res != 0 then res else CompareFileMessage(other)
    }

    function CompareFmiNameFmiLevelIdLevelStarttimeFileMessage(other: ContentInfo): int {
      var res := NumCompare(fmiParameterName, other.fmiParameterName);
      if res != 0 then res else
      var res := NumCompare(fmiParameterLevelId, other.fmiParameterLevelId);
      if res != 0 then res else
      var res := NumCompare(parameterLevel, other.parameterLevel);
      if res != 0 then res else
      var res := ForecastTypeCompare(forecastType, other.forecastType);
      if res != 0 then res else
      var res := NumCompare(forecastNumber, other.forecastNumber);
      if res != 0 then res else
      var res := NumCompare(geometryId, other.geometryId);
      if res != 0 then res else
      var res := NumCompare(forecastTimeUTC, other.forecastTimeUTC);
      if res != 0 then res else CompareFileMessage(other)
    }

    function CompareStarttimeGenerationIdFileMessage(other: ContentInfo): int {
      var res := NumCompare(forecastTimeUTC, other.forecastTimeUTC);
      if res != 0 then res else
      var res := NumCompare(generationId, other.generationId);
      if res != 0 then res else
      var res := ForecastTypeCompare(forecastType, other.forecastType);
      if res != 0 then res else
      var res := NumCompare(forecastNumber, other.forecastNumber);
      if res != 0 then res else CompareFileMessage(other)
    }

    function CompareProducerFileMessage(other: ContentInfo): int {
      var res := NumCompare(producerId, other.producerId);
      if res != 0 then res else CompareFileMessage(other)
    }

    // The documented sort key of each method. The forecast type enters through its rank.
    ghost function Keys(comparisonMethod: nat): seq<int> {
      match comparisonMethod
      case 2 => [producerId, generationId, fmiParameterId, parameterLevel, forecastTimeUTC, geometryId,
                 ForecastTypeRank(forecastType), forecastNumber, fmiParameterLevelId, fileId, messageIndex]
      case 3 => [producerId, generationId, fmiParameterName, parameterLevel, forecastTimeUTC, geometryId,
                 ForecastTypeRank(forecastType), forecastNumber, fmiParameterLevelId, fileId, messageIndex]
      case 4 => [forecastTimeUTC, fileId, messageIndex]
      case 5 => [fmiParameterName, forecastTimeUTC, parameterLevel, fileId, messageIndex]
      case 6 => [fmiParameterId, fmiParameterLevelId, parameterLevel, ForecastTypeRank(forecastType),
                 forecastNumber, forecastTimeUTC, geometryId, fileId, messageIndex]
      case 7 => [forecastTimeUTC, fmiParameterId, fmiParameterLevelId, parameterLevel,
                 ForecastTypeRank(forecastType), forecastNumber, geometryId, fileId, messageIndex]
      case 8 => [forecastTimeUTC, fmiParameterName, fmiParameterLevelId, parameterLevel,
                 ForecastTypeRank(forecastType), forecastNumber, geometryId, fileId, messageIndex]
      case 9 => [generationId, forecastTimeUTC, fileId, messageIndex]
      case 10 => [fmiParameterName, fmiParameterLevelId, parameterLevel, ForecastTypeRank(forecastType),
                  forecastNumber, geometryId, forecastTimeUTC, fileId, messageIndex]
      case 11 => [forecastTimeUTC, generationId, ForecastTypeRank(forecastType), forecastNumber, fileId, messageIndex]
      case 12 => [producerId, fileId, messageIndex]
      case _ => [fileId, messageIndex]
    }
  }

  function NumCompare(a: int, b: int): int {
    if a < b then -1 else if a > b then 1 else 0
  }

  // Type 4 sorts before type 3; all other pairs compare by number.
  function ForecastTypeCompare(a: int, b: int): int {
    if a == 4 && b == 3 then -1
    else if a == 3 && b == 4 then 1
    else NumCompare(a, b)
  }

  // Exchanging 3 and 4 turns the twisted comparison into the plain one.
  ghost function ForecastTypeRank(forecastType: int): int {
    if forecastType == 3 then 4 else if forecastType == 4 then 3 else forecastType
  }

  // Lexicographic comparison of two equally long keys, from position i on.
  ghost function LexFrom(a: seq<int>, b: seq<int>, i: nat): int
    requires |a| == |b| && i <= |a|
    decreases |a| - i
  {
    if i == |a| then 0
    else if a[i] != b[i] then NumCompare(a[i], b[i])
    else LexFrom(a, b, i + 1)
  }

  ghost function LexCompare(a: seq<int>, b: seq<int>): int
    requires |a| == |b|
  {
    LexFrom(a, b, 0)
  }

  lemma LexSteps(a: seq<int>, b: seq<int>)
    requires |a| == |b|
    ensures LexFrom(a, b, |a|) == 0
    ensures forall i {:trigger LexFrom(a, b, i)} :: 0 <= i < |a| ==>
              LexFrom(a, b, i) ==
              (var res := NumCompare(a[i], b[i]);
               if res != 0 then res else LexFrom(a, b, i + 1))
  {
  }

  lemma ForecastTypeCompareIsRankCompare(a: int, b: int)
    ensures ForecastTypeCompare(a, b) == NumCompare(ForecastTypeRank(a), ForecastTypeRank(b))
  {
  }

  // Every comparison method is the lexicographic order of its documented key.
  lemma CompareIsLexicographic(m: nat, x: ContentInfo, y: ContentInfo)
    ensures |x.Keys(m)| == |y.Keys(m)|
    ensures x.Compare(m, y) == LexCompare(x.Keys(m), y.Keys(m))
  {
    var a, b := x.Keys(m), y.Keys(m);
    ForecastTypeCompareIsRankCompare(x.forecastType, y.forecastType);
    match m
    case 2 => LexSteps(a, b);
    case 3 => LexSteps(a, b);
    case 4 => LexSteps(a, b);
    case 5 => LexSteps(a, b);
    case 6 => LexSteps(a, b);
    case 7 => LexSteps(a, b);
    case 8 => LexSteps(a, b);
    case 9 => LexSteps(a, b);
    case 10 => LexSteps(a, b);
    case 11 => LexSteps(a, b);
    case 12 => LexSteps(a, b);
    case _ => LexSteps(a, b);
  }

  lemma {:induction false} LexOrder(a: seq<int>, b: seq<int>, c: seq<int>, i: nat)
    requires |a| == |b| == |c| && i <= |a|
    ensures LexFrom(a, b, i) == -LexFrom(b, a, i)
    ensures LexFrom(a, b, i) == 0 <==> a[i..] == b[i..]
    ensures LexFrom(a, b, i) <= 0 && LexFrom(b, c, i) <= 0 ==> LexFrom(a, c, i) <= 0
    ensures LexFrom(a, b, i) < 0 && LexFrom(b, c, i) <= 0 ==> LexFrom(a, c, i) < 0
    ensures LexFrom(a, b, i) <= 0 && LexFrom(b, c, i) < 0 ==> LexFrom(a, c, i) < 0
    decreases |a| - i
  {
    if i < |a| {
      LexOrder(a, b, c, i + 1);
      assert a[i..] == [a[i]] + a[i + 1..] && b[i..] == [b[i]] + b[i + 1..];
    }
  }

  // Each method is a total order: antisymmetric, transitive, total, and zero exactly
  // when all keys of the method agree.
  lemma CompareIsTotalOrder(m: nat, x: ContentInfo, y: ContentInfo, z: ContentInfo)
    ensures x.Compare(m, y) == -y.Compare(m, x)
    ensures x.Compare(m, y) <= 0 && y.Compare(m, z) <= 0 ==> x.Compare(m, z) <= 0
    ensures x.Compare(m, y) < 0 && y.Compare(m, z) <= 0 ==> x.Compare(m, z) < 0
    ensures x.Compare(m, y) <= 0 && y.Compare(m, z) < 0 ==> x.Compare(m, z) < 0
    ensures x.Compare(m, y) == 0 <==> x.Keys(m) == y.Keys(m)
  {
    CompareIsLexicographic(m, x, y);
    CompareIsLexicographic(m, y, x);
    CompareIsLexicographic(m, y, z);
    CompareIsLexicographic(m, x, z);
    LexOrder(x.Keys(m), y.Keys(m), z.Keys(m), 0);
    assert x.Keys(m)[0..] == x.Keys(m) && y.Keys(m)[0..] == y.Keys(m);
  }

  // Every key ends with the file and message, so records that compare equal are the same message.
  lemma EqualMeansSameMessage(m: nat, x: ContentInfo, y: ContentInfo)
    requires x.Compare(m, y) == 0
    ensures x.fileId == y.fileId && x.messageIndex == y.messageIndex
  {
    CompareIsTotalOrder(m, x, y, y);
    var n := |x.Keys(m)|;
    assert x.Keys(m)[n - 2] == y.Keys(m)[n - 2] && x.Keys(m)[n - 1] == y.Keys(m)[n - 1];
  }

  // ---- The orders in fields ----

  // At the first place where they differ, a is smaller.
  ghost predicate Precedes(a: seq<int>, b: seq<int>) {
    |a| == |b| && exists i :: 0 <= i < |a| && a[i] < b[i] && forall k :: 0 <= k < i ==> a[k] == b[k]
  }

  lemma {:induction false} LexIsPrecedence(a: seq<int>, b: seq<int>, i: nat)
    requires |a| == |b| && i <= |a| && forall k :: 0 <= k < i ==> a[k] == b[k]
    ensures LexFrom(a, b, i) < 0 <==> Precedes(a, b)
    decreases |a| - i
  {
    if i < |a| && a[i] == b[i] {
      LexIsPrecedence(a, b, i + 1);
    }
  }

  lemma KeysDecide(m: nat, x: ContentInfo, y: ContentInfo)
    ensures x.Compare(m, y) < 0 <==> Precedes(x.Keys(m), y.Keys(m))
  {
    CompareIsLexicographic(m, x, y);
    LexIsPrecedence(x.Keys(m), y.Keys(m), 0);
  }

  // Which of two records comes first, by the first field in which they differ.
  lemma OrdersByIdentifier(x: ContentInfo, y: ContentInfo)
    ensures x.Compare(1, y) < 0 <==>
            Precedes([x.fileId, x.messageIndex],
                     [y.fileId, y.messageIndex])
    ensures x.Compare(4, y) < 0 <==>
            Precedes([x.forecastTimeUTC, x.fileId, x.messageIndex],
                     [y.forecastTimeUTC, y.fileId, y.messageIndex])
    ensures x.Compare(9, y) < 0 <==>
            Precedes([x.generationId, x.forecastTimeUTC, x.fileId, x.messageIndex],
                     [y.generationId, y.forecastTimeUTC, y.fileId, y.messageIndex])
    ensures x.Compare(12, y) < 0 <==>
            Precedes([x.producerId, x.fileId, x.messageIndex],
                     [y.producerId, y.fileId, y.messageIndex])
    ensures forall m :: m == 0 || m > 12 ==> x.Compare(m, y) == x.Compare(1, y)
  {
    KeysDecide(1, x, y);
    KeysDecide(4, x, y);
    KeysDecide(9, x, y);
    KeysDecide(12, x, y);
  }

  // The orders that begin with a producer or a parameter.
  lemma OrdersByParameter(x: ContentInfo, y: ContentInfo)
    ensures x.Compare(2, y) < 0 <==>
            Precedes([x.producerId, x.generationId, x.fmiParameterId, x.parameterLevel, x.forecastTimeUTC,
                      x.geometryId, ForecastTypeRank(x.forecastType), x.forecastNumber, x.fmiParameterLevelId,
                      x.fileId, x.messageIndex],
                     [y.producerId, y.generationId, y.fmiParameterId, y.parameterLevel, y.forecastTimeUTC,
                      y.geometryId, ForecastTypeRank(y.forecastType), y.forecastNumber, y.fmiParameterLevelId,
                      y.fileId, y.messageIndex])
    ensures x.Compare(3, y) < 0 <==>
            Precedes([x.producerId, x.generationId, x.fmiParameterName, x.parameterLevel, x.forecastTimeUTC,
                      x.geometryId, ForecastTypeRank(x.forecastType), x.forecastNumber, x.fmiParameterLevelId,
                      x.fileId, x.messageIndex],
                     [y.producerId, y.generationId, y.fmiParameterName, y.parameterLevel, y.forecastTimeUTC,
                      y.geometryId, ForecastTypeRank(y.forecastType), y.forecastNumber, y.fmiParameterLevelId,
                      y.fileId, y.messageIndex])
    ensures x.Compare(5, y) < 0 <==>
            Precedes([x.fmiParameterName, x.forecastTimeUTC, x.parameterLevel, x.fileId, x.messageIndex],
                     [y.fmiParameterName, y.forecastTimeUTC, y.parameterLevel, y.fileId, y.messageIndex])
    ensures x.Compare(6, y) < 0 <==>
            Precedes([x.fmiParameterId, x.fmiParameterLevelId, x.parameterLevel, ForecastTypeRank(x.forecastType),
                      x.forecastNumber, x.forecastTimeUTC, x.geometryId, x.fileId, x.messageIndex],
                     [y.fmiParameterId, y.fmiParameterLevelId, y.parameterLevel, ForecastTypeRank(y.forecastType),
                      y.forecastNumber, y.forecastTimeUTC, y.geometryId, y.fileId, y.messageIndex])
    ensures x.Compare(10, y) < 0 <==>
            Precedes([x.fmiParameterName, x.fmiParameterLevelId, x.parameterLevel, ForecastTypeRank(x.forecastType),
                      x.forecastNumber, x.geometryId, x.forecastTimeUTC, x.fileId, x.messageIndex],
                     [y.fmiParameterName, y.fmiParameterLevelId, y.parameterLevel, ForecastTypeRank(y.forecastType),
                      y.forecastNumber, y.geometryId, y.forecastTimeUTC, y.fileId, y.messageIndex])
  {
    KeysDecide(2, x, y);
    KeysDecide(3, x, y);
    KeysDecide(5, x, y);
    KeysDecide(6, x, y);
    KeysDecide(10, x, y);
  }

  // The orders that begin with the forecast time.
  lemma OrdersByTime(x: ContentInfo, y: ContentInfo)
    ensures x.Compare(7, y) < 0 <==>
            Precedes([x.forecastTimeUTC, x.fmiParameterId, x.fmiParameterLevelId, x.parameterLevel,
                      ForecastTypeRank(x.forecastType), x.forecastNumber, x.geometryId, x.fileId, x.messageIndex],
                     [y.forecastTimeUTC, y.fmiParameterId, y.fmiParameterLevelId, y.parameterLevel,
                      ForecastTypeRank(y.forecastType), y.forecastNumber, y.geometryId, y.fileId, y.messageIndex])
    ensures x.Compare(8, y) < 0 <==>
            Precedes([x.forecastTimeUTC, x.fmiParameterName, x.fmiParameterLevelId, x.parameterLevel,
                      ForecastTypeRank(x.forecastType), x.forecastNumber, x.geometryId, x.fileId, x.messageIndex],
                     [y.forecastTimeUTC, y.fmiParameterName, y.fmiParameterLevelId, y.parameterLevel,
                      ForecastTypeRank(y.forecastType), y.forecastNumber, y.geometryId, y.fileId, y.messageIndex])
    ensures x.Compare(11, y) < 0 <==>
            Precedes([x.forecastTimeUTC, x.generationId, ForecastTypeRank(x.forecastType), x.forecastNumber,
                      x.fileId, x.messageIndex],
                     [y.forecastTimeUTC, y.generationId, ForecastTypeRank(y.forecastType), y.forecastNumber,
                      y.fileId, y.messageIndex])
  {
    KeysDecide(7, x, y);
    KeysDecide(8, x, y);
    KeysDecide(11, x, y);
  }

  // Of two forecasts that differ in their types only, one of type 4 comes before one of type 3,
  // and the smaller type comes first otherwise.
  lemma TypeFourComesBeforeThree(m: nat, x: ContentInfo, forecastType: int)
    requires m in {2, 3, 6, 7, 8, 10, 11} && x.forecastType != forecastType
    ensures x.Compare(m, x.(forecastType := forecastType)) < 0
       <==> if {x.forecastType, forecastType} == {3, 4} then x.forecastType == 4 else x.forecastType < forecastType
  {
  }
}
