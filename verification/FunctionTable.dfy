// The table of Lua functions, built from comma-separated name lists of the types 1 to 9.
module FunctionTables {
  import opened Wrappers

  // The buffer has room for this many characters and the terminator.
  const MAX_NAME: nat := 99

  const LAST_TYPE: nat := 9

  function LowerChar(c: char): char {
    if 'A' <= c <= 'Z' then c - 'A' + 'a' else c
  }

  function Lower(s: string): (r: string)
    ensures |r| == |s|
  {
    seq(|s|, k requires 0 <= k < |s| => LowerChar(s[k]))
  }

  predicate IsSeparator(c: char) {
    c == '\0' || c == ','
  }

  // ---- What a list means ----

  // The pieces between separators, possibly empty ones.
  function Pieces(s: string): (ps: seq<string>)
    ensures |ps| > 0
  {
    if |s| == 0 then [""]
    else
      var ps := Pieces(s[1..]);
      if IsSeparator(s[0]) then [""] + ps else [[s[0]] + ps[0]] + ps[1..]
  }

  function NonEmpty(ps: seq<string>): seq<string> {
    if |ps| == 0 then [] else (if |ps[0]| > 0 then [ps[0]] else []) + NonEmpty(ps[1..])
  }

  // ---- What the tokenizer makes of it ----

  function Emitted(buf: string): seq<string> {
    if |buf| > 0 then [buf] else []
  }

  // The names still to come when `rest` is unread and `buf` is in the buffer. A character that
  // no longer fits ends the name and is lost.
  function Scan(rest: string, buf: string): seq<string>
    decreases |rest|
  {
    if |rest| == 0 then Emitted(buf)
    else if !IsSeparator(rest[0]) && |buf| < MAX_NAME then Scan(rest[1..], buf + [rest[0]])
    else Emitted(buf) + Scan(rest[1..], "")
  }

  // A piece that is too long falls apart, and every hundredth character disappears.
  function Chopped(p: string): (names: seq<string>) {
    if |p| <= MAX_NAME then Emitted(p) else [p[..MAX_NAME]] + Chopped(p[MAX_NAME + 1..])
  }

  function ChoppedAll(ps: seq<string>): seq<string> {
    if |ps| == 0 then [] else Chopped(ps[0]) + ChoppedAll(ps[1..])
  }

  lemma {:induction false} ScanChopsPieces(rest: string, buf: string)
    requires |buf| <= MAX_NAME
    ensures Scan(rest, buf) == Chopped(buf + Pieces(rest)[0]) + ChoppedAll(Pieces(rest)[1..])
    decreases |rest|
  {
    var ps := Pieces(rest);
    if |rest| == 0 {
      assert buf + ps[0] == buf;
    } else if IsSeparator(rest[0]) {
      ScanChopsPieces(rest[1..], "");
      var qs := Pieces(rest[1..]);
      assert ps[1..] == qs && buf + ps[0] == buf && "" + qs[0] == qs[0];
    } else {
      var qs := Pieces(rest[1..]);
      assert ps[0] == [rest[0]] + qs[0] && ps[1..] == qs[1..];
      if |buf| < MAX_NAME {
        ScanChopsPieces(rest[1..], buf + [rest[0]]);
        assert buf + [rest[0]] + qs[0] == buf + ps[0];
      } else {
        ScanChopsPieces(rest[1..], "");
        var p := buf + ps[0];
        assert p[..MAX_NAME] == buf && p[MAX_NAME + 1..] == qs[0] && "" + qs[0] == qs[0];
      }
    }
  }

  // For every list: the tokenizer chops the pieces of the list.
  lemma TokensAreChoppedPieces(s: string)
    ensures Scan(s, "") == ChoppedAll(Pieces(s))
  {
    ScanChopsPieces(s, "");
    assert "" + Pieces(s)[0] == Pieces(s)[0];
  }

  predicate Short(ps: seq<string>) {
    forall k :: 0 <= k < |ps| ==> |ps[k]| <= MAX_NAME
  }

  function Length(names: seq<string>): nat {
    if |names| == 0 then 0 else |names[0]| + Length(names[1..])
  }

  lemma {:induction false} LengthOfSum(a: seq<string>, b: seq<string>)
    ensures Length(a + b) == Length(a) + Length(b)
  {
    if |a| == 0 {
      assert a + b == b;
    } else {
      LengthOfSum(a[1..], b);
      assert (a + b)[1..] == a[1..] + b;
    }
  }

  lemma {:induction false} ChoppedLosesCharacters(p: string)
    ensures Length(Chopped(p)) <= |p| && (Length(Chopped(p)) == |p| <==> |p| <= MAX_NAME)
  {
    if |p| > MAX_NAME {
      ChoppedLosesCharacters(p[MAX_NAME + 1..]);
      assert Chopped(p)[1..] == Chopped(p[MAX_NAME + 1..]);
    }
  }

  lemma {:induction false} ChoppedLength(ps: seq<string>)
    ensures Length(ChoppedAll(ps)) <= Length(NonEmpty(ps))
    ensures Length(ChoppedAll(ps)) == Length(NonEmpty(ps)) <==> Short(ps)
  {
    if |ps| > 0 {
      ChoppedLength(ps[1..]);
      ChoppedLosesCharacters(ps[0]);
      LengthOfSum(Chopped(ps[0]), ChoppedAll(ps[1..]));
      LengthOfSum(if |ps[0]| > 0 then [ps[0]] else [], NonEmpty(ps[1..]));
      assert Short(ps) <==> |ps[0]| <= MAX_NAME && Short(ps[1..]) by {
        assert ps == [ps[0]] + ps[1..];
      }
    }
  }

  lemma {:induction false} ShortPiecesStay(ps: seq<string>)
    requires Short(ps)
    ensures ChoppedAll(ps) == NonEmpty(ps)
  {
    if |ps| > 0 {
      ShortPiecesStay(ps[1..]);
    }
  }

  // The names are exactly the non-empty pieces of the list if and only if none is too long.
  lemma TokensArePieces(s: string)
    ensures Scan(s, "") == NonEmpty(Pieces(s)) <==> Short(Pieces(s))
  {
    TokensAreChoppedPieces(s);
    ChoppedLength(Pieces(s));
    if Short(Pieces(s)) {
      ShortPiecesStay(Pieces(s));
    }
  }

  // ---- The table ----

  datatype LuaFunction = LuaFunction(name: string, functionType: nat)

  type Table = map<string, LuaFunction>

  // Inserting keeps what is already there.
  function Inserted(table: Table, name: string, functionType: nat): Table {
    if Lower(name) in table then table else table[Lower(name) := LuaFunction(name, functionType)]
  }

  function InsertedAll(table: Table, names: seq<string>, functionType: nat): Table
    decreases |names|
  {
    if |names| == 0 then table
    else InsertedAll(Inserted(table, names[0], functionType), names[1..], functionType)
  }

  function Found(table: Table, name: string): Option<LuaFunction> {
    if Lower(name) in table then Some(table[Lower(name)]) else None
  }

  // The first name of the list that equals the given one but for case.
  function FirstLike(names: seq<string>, name: string): Option<string> {
    if |names| == 0 then None
    else if Lower(names[0]) == Lower(name) then Some(names[0])
    else FirstLike(names[1..], name)
  }

  lemma {:induction false} FoundAfterInserting(table: Table, names: seq<string>, functionType: nat, name: string)
    ensures Found(InsertedAll(table, names, functionType), name) ==
              if Found(table, name).Some? then Found(table, name)
              else if FirstLike(names, name).Some? then Some(LuaFunction(FirstLike(names, name).value, functionType))
              else None
    decreases |names|
  {
    if |names| > 0 {
      FoundAfterInserting(Inserted(table, names[0], functionType), names[1..], functionType, name);
    }
  }

  // Loading the lists of the types from `functionType` on.
  function Loaded(table: Table, lists: seq<string>, functionType: nat): Table
    requires functionType <= |lists|
    decreases |lists| - functionType
  {
    if functionType == |lists| then table
    else Loaded(InsertedAll(table, Scan(lists[functionType], ""), functionType + 1), lists, functionType + 1)
  }

  // Splitting and searching instead: the smallest type that lists the name, with its first spelling.
  function Search(lists: seq<string>, functionType: nat, name: string): Option<LuaFunction>
    requires functionType <= |lists|
    decreases |lists| - functionType
  {
    if functionType == |lists| then None
    else
      var first := FirstLike(NonEmpty(Pieces(lists[functionType])), name);
      if first.Some? then Some(LuaFunction(first.value, functionType + 1)) else Search(lists, functionType + 1, name)
  }

  lemma {:induction false} LoadedThenFound(table: Table, lists: seq<string>, functionType: nat, name: string)
    requires functionType <= |lists|
    requires forall k :: 0 <= k < |lists| ==> Short(Pieces(lists[k]))
    ensures Found(Loaded(table, lists, functionType), name) ==
              if Found(table, name).Some? then Found(table, name) else Search(lists, functionType, name)
    decreases |lists| - functionType
  {
    if functionType < |lists| {
      var names := Scan(lists[functionType], "");
      TokensArePieces(lists[functionType]);
      FoundAfterInserting(table, names, functionType + 1, name);
      LoadedThenFound(InsertedAll(table, names, functionType + 1), lists, functionType + 1, name);
    }
  }

  // What a result of the search means.
  lemma {:induction false} SearchFindsSmallestType(lists: seq<string>, functionType: nat, name: string)
    requires functionType <= |lists|
    ensures var r := Search(lists, functionType, name);
            && (r.Some? ==>
                  && functionType < r.value.functionType <= |lists|
                  && FirstLike(NonEmpty(Pieces(lists[r.value.functionType - 1])), name) == Some(r.value.name)
                  && forall k :: functionType <= k < r.value.functionType - 1 ==>
                       FirstLike(NonEmpty(Pieces(lists[k])), name).None?)
            && (r.None? ==> forall k :: functionType <= k < |lists| ==>
                              FirstLike(NonEmpty(Pieces(lists[k])), name).None?)
    decreases |lists| - functionType
  {
    if functionType < |lists| {
      SearchFindsSmallestType(lists, functionType + 1, name);
    }
  }

  // ---- Overlong names ----

  ghost predicate ShortKeys(table: Table) {
    forall key :: key in table ==> |key| <= MAX_NAME
  }

  lemma {:induction false} ChoppedIsShort(p: string)
    ensures Short(Chopped(p))
  {
    if |p| > MAX_NAME {
      ChoppedIsShort(p[MAX_NAME + 1..]);
    }
  }

  lemma {:induction false} ChoppedAllIsShort(ps: seq<string>)
    ensures Short(ChoppedAll(ps))
  {
    if |ps| > 0 {
      ChoppedIsShort(ps[0]);
      ChoppedAllIsShort(ps[1..]);
    }
  }

  lemma {:induction false} ShortNamesShortKeys(table: Table, names: seq<string>, functionType: nat)
    requires ShortKeys(table) && Short(names)
    ensures ShortKeys(InsertedAll(table, names, functionType))
    decreases |names|
  {
    if |names| > 0 {
      assert |names[0]| <= MAX_NAME;
      ShortNamesShortKeys(Inserted(table, names[0], functionType), names[1..], functionType);
    }
  }

  lemma {:induction false} LoadedKeysAreShort(table: Table, lists: seq<string>, functionType: nat)
    requires functionType <= |lists| && ShortKeys(table)
    ensures ShortKeys(Loaded(table, lists, functionType))
    decreases |lists| - functionType
  {
    if functionType < |lists| {
      var names := Scan(lists[functionType], "");
      TokensAreChoppedPieces(lists[functionType]);
      ChoppedAllIsShort(Pieces(lists[functionType]));
      ShortNamesShortKeys(table, names, functionType + 1);
      LoadedKeysAreShort(InsertedAll(table, names, functionType + 1), lists, functionType + 1);
    }
  }

  lemma {:induction false} PieceIsListed(ps: seq<string>, k: nat)
    requires k < |ps| && |ps[k]| > 0
    ensures FirstLike(NonEmpty(ps), ps[k]).Some?
  {
    var rest := NonEmpty(ps[1..]);
    assert (k > 0 && NonEmpty(ps) == rest) || (NonEmpty(ps)[0] == ps[0] && NonEmpty(ps)[1..] == rest);
    if k > 0 {
      PieceIsListed(ps[1..], k - 1);
    }
  }

  // The search finds an overlong name, the table cannot.
  lemma OverlongNameIsLost(lists: seq<string>, k: nat, j: nat)
    requires k < |lists| && j < |Pieces(lists[k])| && |Pieces(lists[k])[j]| > MAX_NAME
    ensures var name := Pieces(lists[k])[j]; Search(lists, 0, name).Some? && Found(Loaded(map[], lists, 0), name).None?
  {
    var name := Pieces(lists[k])[j];
    PieceIsListed(Pieces(lists[k]), j);
    SearchFindsSmallestType(lists, 0, name);
    LoadedKeysAreShort(map[], lists, 0);
    assert |Lower(name)| > MAX_NAME;
  }

  // A lookup after loading gives the smallest type that lists the name in any case, with its
  // first spelling, and nothing for all other names, if and only if no name is overlong.
  lemma TableAnswersLikeSearch(lists: seq<string>)
    ensures (forall name :: Found(Loaded(map[], lists, 0), name) == Search(lists, 0, name))
       <==> forall k :: 0 <= k < |lists| ==> Short(Pieces(lists[k]))
  {
    if forall k :: 0 <= k < |lists| ==> Short(Pieces(lists[k])) {
      forall name ensures Found(Loaded(map[], lists, 0), name) == Search(lists, 0, name) {
        LoadedThenFound(map[], lists, 0, name);
      }
    } else {
      var k :| 0 <= k < |lists| && !Short(Pieces(lists[k]));
      var j :| 0 <= j < |Pieces(lists[k])| && |Pieces(lists[k])[j]| > MAX_NAME;
      OverlongNameIsLost(lists, k, j);
    }
  }

  // The lists the script gives before its first error.
  function Answered(answers: seq<Option<string>>): (lists: seq<string>)
    ensures |lists| <= |answers|
  {
    if |answers| == 0 || answers[0].None? then [] else [answers[0].value] + Answered(answers[1..])
  }

  lemma {:induction false} AnsweredAre(answers: seq<Option<string>>, n: nat)
    requires n <= |answers| && forall k :: 0 <= k < n ==> answers[k].Some?
    ensures n <= |Answered(answers)| && forall k :: 0 <= k < n ==> Answered(answers)[k] == answers[k].value
    ensures n < |answers| && answers[n].None? ==> |Answered(answers)| == n
  {
    if n > 0 {
      AnsweredAre(answers[1..], n - 1);
      assert forall k :: 0 < k < n ==> answers[k] == answers[1..][k - 1];
    }
  }

  class FunctionTable {
    var mFunctions: Table

    constructor ()
      ensures mFunctions == map[]
    {
      mFunctions := map[];
    }

    // `cstr` is what the script answers for the type; reading goes on to its terminator.
    method LoadFunctionList(cstr: string, functionType: nat)
      modifies this
      ensures mFunctions == InsertedAll(old(mFunctions), Scan(cstr, ""), functionType)
    {
      var buf := new char[MAX_NAME + 1](_ => '\0');
      var c, len := 0, |cstr|;
      for t := 0 to len + 1
        invariant c <= MAX_NAME && (t == len + 1 ==> c == 0)
        invariant InsertedAll(mFunctions, Unread(cstr, t, buf[..c]), functionType)
               == InsertedAll(old(mFunctions), Scan(cstr, ""), functionType)
      {
        var ch := if t < len then cstr[t] else '\0';
        ghost var held := buf[..c];
        UnreadNext(cstr, t, held);
        if ch != '\0' && ch != ',' && c < MAX_NAME {
          buf[c] := ch;
          c := c + 1;
          assert buf[..c] == held + [ch];
        } else {
          buf[c] := '\0';
          assert buf[..c] == held;
          InsertOne(mFunctions, held, Unread(cstr, t + 1, ""), functionType);
          assert [] + Unread(cstr, t + 1, "") == Unread(cstr, t + 1, "");
          if c > 0 {
            var name := buf[..c];
            if Lower(name) !in mFunctions {
              mFunctions := mFunctions[Lower(name) := LuaFunction(name, functionType)];
            }
          }
          c := 0;
          assert buf[..c] == "";
        }
      }
    }

    // An error of the script ends the loading with what has been loaded by then.
    method Init(answers: seq<Option<string>>) returns (ok: bool)
      requires |answers| == LAST_TYPE
      modifies this
      ensures mFunctions == Loaded(map[], Answered(answers), 0)
      ensures ok <==> |Answered(answers)| == 9
    {
      mFunctions := map[];
      ghost var lists := Answered(answers);
      AnsweredAre(answers, 0);
      for t := 1 to LAST_TYPE + 1
        invariant t - 1 <= |lists| && forall k :: 0 <= k < t - 1 ==> answers[k].Some?
        invariant Loaded(mFunctions, lists, t - 1) == Loaded(map[], lists, 0)
      {
        AnsweredAre(answers, t - 1);
        if answers[t - 1].None? {
          return false;
        }
        AnsweredAre(answers, t);
        LoadFunctionList(answers[t - 1].value, t);
      }
      return true;
    }

    // The type is 0 for unknown names.
    method GetFunction(functionName: string) returns (functionType: nat, function_: string)
      ensures Found(mFunctions, functionName).None? ==> functionType == 0
      ensures Found(mFunctions, functionName).Some? ==>
                LuaFunction(function_, functionType) == Found(mFunctions, functionName).value
    {
      if Lower(functionName) in mFunctions {
        var a := mFunctions[Lower(functionName)];
        return a.functionType, a.name;
      }
      return 0, "";
    }
  }

  // The names that reading from position t on will bring; position |s| is the terminator.
  ghost function Unread(s: string, t: nat, buf: string): seq<string> {
    if t <= |s| then Scan(s[t..], buf) else []
  }

  lemma UnreadNext(s: string, t: nat, buf: string)
    requires t <= |s|
    ensures Unread(s, t, buf)
         == if t < |s| && !IsSeparator(s[t]) && |buf| < MAX_NAME then Unread(s, t + 1, buf + [s[t]])
            else Emitted(buf) + Unread(s, t + 1, "")
  {
    if t < |s| {
      assert s[t..][1..] == s[t + 1..];
    }
  }

  lemma InsertOne(table: Table, name: string, rest: seq<string>, functionType: nat)
    ensures InsertedAll(table, [name] + rest, functionType)
         == InsertedAll(Inserted(table, name, functionType), rest, functionType)
  {
    assert ([name] + rest)[1..] == rest;
  }

  // ---- What the parts mean ----

  // Letters are the same but for case if they are 32 apart.
  predicate SameLetter(c: char, d: char) {
    || c == d
    || ('A' <= c <= 'Z' && d as int == c as int + 32)
    || ('A' <= d <= 'Z' && c as int == d as int + 32)
  }

  lemma LowerForgetsCase(s: string, t: string)
    ensures Lower(s) == Lower(t) <==> |s| == |t| && forall k :: 0 <= k < |s| ==> SameLetter(s[k], t[k])
  {
    if Lower(s) == Lower(t) {
      forall k | 0 <= k < |s| ensures SameLetter(s[k], t[k]) {
        assert Lower(s)[k] == Lower(t)[k];
      }
    }
  }

  // The first name of the list that is the same but for case.
  lemma {:induction false} FirstLikeIsFirst(names: seq<string>, name: string)
    ensures FirstLike(names, name).None? ==> forall k :: 0 <= k < |names| ==> Lower(names[k]) != Lower(name)
    ensures FirstLike(names, name).Some? ==>
              exists k :: 0 <= k < |names| && names[k] == FirstLike(names, name).value
                          && Lower(names[k]) == Lower(name)
                          && forall j :: 0 <= j < k ==> Lower(names[j]) != Lower(name)
  {
    if |names| > 0 {
      if Lower(names[0]) == Lower(name) {
        assert names[0] == FirstLike(names, name).value;
      } else {
        FirstLikeIsFirst(names[1..], name);
        if FirstLike(names, name).Some? {
          var k :| 0 <= k < |names[1..]| && names[1..][k] == FirstLike(names, name).value
                   && Lower(names[1..][k]) == Lower(name)
                   && forall j :: 0 <= j < k ==> Lower(names[1..][j]) != Lower(name);
          assert names[k + 1] == names[1..][k];
        }
      }
    }
  }

  // Names spelled differently but for case find the same entry.
  lemma CaseDoesNotMatter(table: Table, lists: seq<string>, a: string, b: string)
    requires |a| == |b| && forall k :: 0 <= k < |a| ==> SameLetter(a[k], b[k])
    ensures Found(table, a) == Found(table, b)
    ensures Search(lists, 0, a) == Search(lists, 0, b)
  {
    LowerForgetsCase(a, b);
    SearchSame(lists, 0, a, b);
  }

  lemma {:induction false} SearchSame(lists: seq<string>, functionType: nat, a: string, b: string)
    requires functionType <= |lists| && Lower(a) == Lower(b)
    ensures Search(lists, functionType, a) == Search(lists, functionType, b)
    decreases |lists| - functionType
  {
    if functionType < |lists| {
      SearchSame(lists, functionType + 1, a, b);
      LikeSame(NonEmpty(Pieces(lists[functionType])), a, b);
    }
  }

  lemma {:induction false} LikeSame(names: seq<string>, a: string, b: string)
    requires Lower(a) == Lower(b)
    ensures FirstLike(names, a) == FirstLike(names, b)
  {
    if |names| > 0 {
      LikeSame(names[1..], a, b);
    }
  }

  // A list of one more name begins with it; commas and terminators separate.
  lemma {:induction false} PiecesOfTwo(name: string, sep: char, rest: string)
    requires sep == ',' || sep == '\0'
    requires forall k :: 0 <= k < |name| ==> name[k] != ',' && name[k] != '\0'
    ensures Pieces(name) == [name]
    ensures Pieces(name + [sep] + rest) == [name] + Pieces(rest)
  {
    var s := name + [sep] + rest;
    if |name| == 0 {
      assert s == [sep] + rest;
      assert s[1..] == rest;
    } else {
      PiecesOfTwo(name[1..], sep, rest);
      assert s[1..] == name[1..] + [sep] + rest;
      assert [name[0]] + name[1..] == name;
    }
  }

  lemma {:induction false} NonEmptyHolds(ps: seq<string>)
    ensures forall p :: p in NonEmpty(ps) <==> p in ps && p != ""
  {
    if |ps| > 0 {
      NonEmptyHolds(ps[1..]);
      assert ps == [ps[0]] + ps[1..];
    }
  }

  lemma SliceOfRest(p: string, k: nat)
    requires k > 0 && 100 * k < |p|
    ensures |p| <= 100 * k + 99 ==> p[100..][100 * (k - 1)..] == p[100 * k..]
    ensures |p| > 100 * k + 99 ==> p[100..][100 * (k - 1)..100 * (k - 1) + 99] == p[100 * k..100 * k + 99]
  {
  }

  // Of a piece, part k is read from place 100 k on, and place 100 k + 99 is lost.
  lemma {:induction false} ChoppedAt(p: string, k: nat)
    ensures k < |Chopped(p)| <==> 100 * k < |p|
    ensures 100 * k < |p| ==>
              Chopped(p)[k] == if |p| <= 100 * k + 99 then p[100 * k..] else p[100 * k..100 * k + 99]
  {
    if |p| > MAX_NAME {
      if k > 0 && 100 * k < |p| {
        var rest := p[MAX_NAME + 1..];
        ChoppedAt(rest, k - 1);
        assert Chopped(p)[k] == Chopped(rest)[k - 1];
        SliceOfRest(p, k);
      } else if k > 0 {
        ChoppedAt(p[MAX_NAME + 1..], k - 1);
      }
    }
  }
}
