// Rows of fields separated by semicolons or newlines: splitting in place, and printing and
// parsing numbers.
module Csv {
  import opened Wrappers

  // The array of field pointers has this many places.
  const MAX_FIELDS: nat := 100

  predicate IsSeparator(c: char) {
    c == ';' || c == '\n'
  }

  predicate NoSeparator(s: string) {
    forall k :: 0 <= k < |s| ==> !IsSeparator(s[k])
  }

  predicate NoTerminator(s: string) {
    forall k :: 0 <= k < |s| ==> s[k] != '\0'
  }

  function Separators(s: string): nat {
    if |s| == 0 then 0 else (if IsSeparator(s[0]) then 1 else 0) + Separators(s[1..])
  }

  // What a C string that starts like s holds.
  function CString(s: string): (r: string)
    ensures |r| <= |s|
  {
    if |s| == 0 || s[0] == '\0' then "" else [s[0]] + CString(s[1..])
  }

  // The pieces between separators, one more than there are separators.
  function Fields(s: string): (fields: seq<string>)
    ensures |fields| == Separators(s) + 1
  {
    if |s| == 0 then [""]
    else
      var rest := Fields(s[1..]);
      if IsSeparator(s[0]) then [""] + rest else [[s[0]] + rest[0]] + rest[1..]
  }

  // Writes the fields one after the other with semicolons between them.
  function Joined(fields: seq<string>): string
    requires |fields| > 0
  {
    if |fields| == 1 then fields[0] else fields[0] + ";" + Joined(fields[1..])
  }

  lemma {:induction false} FieldsCut(s: string, i: nat)
    requires i < |s| && IsSeparator(s[i]) && NoSeparator(s[..i])
    ensures Fields(s) == [s[..i]] + Fields(s[i + 1..])
  {
    if i > 0 {
      assert !IsSeparator(s[..i][0]);
      assert s[1..][..i - 1] == s[..i][1..];
      FieldsCut(s[1..], i - 1);
      assert s[1..][i - 1 + 1..] == s[i + 1..];
      assert [s[0]] + s[1..][..i - 1] == s[..i];
    }
  }

  lemma {:induction false} FieldsOfOne(s: string)
    requires NoSeparator(s)
    ensures Fields(s) == [s] && Separators(s) == 0
  {
    if |s| > 0 {
      FieldsOfOne(s[1..]);
      assert [s[0]] + s[1..] == s;
    }
  }

  // Joining and splitting are inverse to each other: the leading fields are found again, and
  // the last one is split further if it has separators itself.
  lemma {:induction false} FieldsOfJoined(fields: seq<string>, last: string)
    requires forall k :: 0 <= k < |fields| ==> NoSeparator(fields[k])
    ensures Fields(Joined(fields + [last])) == fields + Fields(last)
  {
    if |fields| == 0 {
      assert fields + [last] == [last];
    } else {
      var rest := fields[1..];
      assert (fields + [last])[1..] == rest + [last];
      FieldsOfJoined(rest, last);
      FieldsOfTwo(fields[0], Joined(rest + [last]));
    }
  }

  lemma FieldsOfTwo(a: string, rest: string)
    requires NoSeparator(a)
    ensures Fields(a + ";" + rest) == [a] + Fields(rest)
  {
    var row, n := a + ";" + rest, |a|;
    assert row[..n] == a && row[n] == ';' && row[n + 1..] == rest;
    FieldsCut(row, n);
  }

  lemma {:induction false} JoinedOfFields(s: string)
    requires forall k :: 0 <= k < |s| ==> s[k] != '\n'
    ensures Joined(Fields(s)) == s
  {
    if |s| > 0 {
      JoinedOfFields(s[1..]);
      var rest := Fields(s[1..]);
      if IsSeparator(s[0]) {
        assert ([""] + rest)[1..] == rest;
        assert "" + ";" + Joined(rest) == s;
      } else {
        var fields := [[s[0]] + rest[0]] + rest[1..];
        assert fields[1..] == rest[1..];
        assert Joined(fields) == [s[0]] + Joined(rest);
      }
    }
  }

  lemma {:induction false} CStringHasNoTerminator(s: string)
    ensures NoTerminator(CString(s)) && (NoTerminator(s) <==> CString(s) == s)
  {
    if |s| > 0 && s[0] != '\0' {
      CStringHasNoTerminator(s[1..]);
      assert s == [s[0]] + s[1..];
    }
  }

  // What the leading fields of a row are written as.
  function Lead(fields: seq<string>): string {
    if |fields| == 0 then "" else fields[0] + ";" + Lead(fields[1..])
  }

  lemma {:induction false} JoinedLeads(fields: seq<string>, last: string)
    ensures Joined(fields + [last]) == Lead(fields) + last
  {
    if |fields| == 0 {
      assert fields + [last] == [last];
    } else {
      assert (fields + [last])[1..] == fields[1..] + [last];
      JoinedLeads(fields[1..], last);
    }
  }

  lemma {:induction false} CStringOfSum(a: string, b: string)
    requires NoTerminator(a)
    ensures CString(a + b) == a + CString(b)
  {
    if |a| == 0 {
      assert a + b == b;
    } else {
      assert a[0] != '\0' && (a + b)[1..] == a[1..] + b;
      CStringOfSum(a[1..], b);
      assert [a[0]] + a[1..] == a;
    }
  }

  lemma {:induction false} LeadHasNoTerminator(fields: seq<string>)
    requires forall k :: 0 <= k < |fields| ==> NoTerminator(fields[k])
    ensures NoTerminator(Lead(fields))
  {
    if |fields| > 0 {
      LeadHasNoTerminator(fields[1..]);
      assert NoTerminator(fields[0]);
    }
  }

  // Reading a written row as a C string and splitting it gives the leading fields back, and
  // the pieces of the last one up to its terminator.
  lemma FieldsOfRow(fields: seq<string>, last: string)
    requires forall k :: 0 <= k < |fields| ==> NoSeparator(fields[k]) && NoTerminator(fields[k])
    ensures Fields(CString(Joined(fields + [last]))) == fields + Fields(CString(last))
  {
    JoinedLeads(fields, last);
    LeadHasNoTerminator(fields);
    CStringOfSum(Lead(fields), last);
    JoinedLeads(fields, CString(last));
    FieldsOfJoined(fields, CString(last));
  }

  lemma {:induction false} FirstFieldIsPrefix(s: string)
    ensures Fields(s)[0] <= s && (Fields(s)[0] == s <==> NoSeparator(s))
  {
    if |s| > 0 {
      FirstFieldIsPrefix(s[1..]);
      assert s == [s[0]] + s[1..];
      if !IsSeparator(s[0]) {
        assert Fields(s)[0] == [s[0]] + Fields(s[1..])[0];
        assert Fields(s)[0][1..] == Fields(s[1..])[0];
      }
    }
  }

  lemma {:induction false} CStringIsPrefix(s: string)
    ensures CString(s) <= s
  {
    if |s| > 0 && s[0] != '\0' {
      CStringIsPrefix(s[1..]);
      assert s == [s[0]] + s[1..];
    }
  }

  // A text comes back up to its first terminator or separator.
  lemma FirstFieldOfText(s: string)
    ensures Fields(CString(s))[0] <= s
    ensures Fields(CString(s))[0] == s <==> NoSeparator(s) && NoTerminator(s)
  {
    FirstFieldIsPrefix(CString(s));
    CStringIsPrefix(s);
    CStringHasNoTerminator(s);
  }

  lemma {:induction false} FirstFieldOfRow(text: string, rest: string)
    ensures Fields(CString(text + ";" + rest))[0] == Fields(CString(text))[0]
  {
    var row := text + ";" + rest;
    if |text| > 0 {
      FirstFieldOfRow(text[1..], rest);
      assert row[1..] == text[1..] + ";" + rest;
    } else {
      assert row[0] == ';';
    }
  }

  lemma {:induction false} JoinedInParts(a: seq<string>, b: seq<string>)
    requires |b| > 0
    ensures Joined(a + b) == Joined(a + [Joined(b)])
  {
    if |a| == 0 {
      assert a + b == b && a + [Joined(b)] == [Joined(b)];
    } else {
      JoinedInParts(a[1..], b);
      assert (a + b)[1..] == a[1..] + b;
      assert (a + [Joined(b)])[1..] == a[1..] + [Joined(b)];
    }
  }

  // What is read back in place of a text behind n plain fields.
  lemma FieldOfRow(fields: seq<string>, n: nat)
    requires n + 1 < |fields| && forall k :: 0 <= k < n ==> NoSeparator(fields[k]) && NoTerminator(fields[k])
    ensures var read := Fields(CString(Joined(fields))); |read| > n && read[n] == Fields(CString(fields[n]))[0]
  {
    var lead, rest := fields[..n], fields[n..];
    assert fields == lead + rest;
    JoinedInParts(lead, rest);
    FieldsOfRow(lead, Joined(rest));
    FirstFieldOfRow(rest[0], Joined(rest[1..]));
  }

  // ---- Rows that are cut off ----

  ghost predicate CutFrom(cut: seq<string>, fields: seq<string>) {
    |cut| <= |fields| && forall k :: 0 <= k < |cut| ==> cut[k] <= fields[k]
  }

  // The fields of a front are fields of the row, the last one possibly cut.
  lemma {:induction false} FieldsOfFront(s: string, n: nat)
    requires n <= |s|
    ensures CutFrom(Fields(s[..n]), Fields(s))
  {
    if n > 0 {
      FieldsOfFront(s[1..], n - 1);
      assert s[..n][0] == s[0] && s[..n][1..] == s[1..][..n - 1];
    }
  }

  lemma {:induction false} CStringOfFront(s: string, n: nat)
    requires n <= |s|
    ensures CString(s[..n]) <= CString(s)
  {
    if n > 0 && s[0] != '\0' {
      CStringOfFront(s[1..], n - 1);
      assert s[..n][0] == s[0] && s[..n][1..] == s[1..][..n - 1];
    }
  }

  lemma FieldsOfCutRow(s: string, n: nat)
    requires n <= |s|
    ensures CutFrom(Fields(CString(s[..n])), Fields(CString(s)))
  {
    CStringOfFront(s, n);
    FieldsOfFront(CString(s), |CString(s[..n])|);
    assert CString(s)[..|CString(s[..n])|] == CString(s[..n]);
  }

  lemma {:induction false} LeadIsJoined(fields: seq<string>)
    requires |fields| > 0
    ensures Lead(fields) == Joined(fields) + ";"
  {
    if |fields| > 1 {
      LeadIsJoined(fields[1..]);
    } else {
      assert Lead(fields[1..]) == "";
    }
  }

  // A front that misses the end of the leading fields has no more fields than they are.
  lemma FieldsBeforeLast(fields: seq<string>, n: nat)
    requires |fields| > 0 && n < |Lead(fields)|
    requires forall k :: 0 <= k < |fields| ==> NoSeparator(fields[k]) && NoTerminator(fields[k])
    ensures |Fields(CString(Lead(fields)[..n]))| <= |fields|
  {
    var front, last := fields[..|fields| - 1], fields[|fields| - 1];
    assert fields == front + [last];
    LeadIsJoined(fields);
    FieldsOfRow(front, last);
    CStringHasNoTerminator(last);
    FieldsOfOne(last);
    FieldsOfCutRow(Joined(fields), n);
    assert Lead(fields)[..n] == Joined(fields)[..n];
  }

  // ---- Where the fields lie in the row ----

  function Offset(fields: seq<string>, k: nat): nat
    requires k <= |fields|
  {
    if k == 0 then 0 else Offset(fields, k - 1) + |fields[k - 1]| + 1
  }

  // Field k lies at its offset, and a separator or the end of the row follows it.
  ghost predicate Laid(csv: string, fields: seq<string>, k: nat)
    requires k < |fields|
  {
    var start, n := Offset(fields, k), |fields[k]|;
    && start + n <= |csv|
    && (forall j :: 0 <= j < n ==> csv[start + j] == fields[k][j] && !IsSeparator(fields[k][j]))
    && (if k + 1 < |fields| then start + n < |csv| && IsSeparator(csv[start + n]) else start + n == |csv|)
  }

  lemma {:induction false} OffsetAfterEmpty(fields: seq<string>, k: nat)
    requires k <= |fields|
    ensures Offset([""] + fields, k + 1) == Offset(fields, k) + 1
  {
    if k > 0 {
      OffsetAfterEmpty(fields, k - 1);
    } else {
      assert Offset([""] + fields, 0) == 0;
    }
  }

  lemma {:induction false} OffsetAfterLonger(fields: seq<string>, longer: seq<string>, k: nat)
    requires 0 < k <= |fields| == |longer| && |longer[0]| == |fields[0]| + 1
    requires forall j :: 0 < j < |fields| ==> longer[j] == fields[j]
    ensures Offset(longer, k) == Offset(fields, k) + 1
  {
    if k > 1 {
      OffsetAfterLonger(fields, longer, k - 1);
    } else {
      assert Offset(longer, 0) == 0 && Offset(fields, 0) == 0;
    }
  }

  lemma LaidAfterSeparator(csv: string, fields: seq<string>, k: nat)
    requires |csv| > 0 && IsSeparator(csv[0]) && |fields| > 0 && k <= |fields|
    requires k > 0 ==> Laid(csv[1..], fields, k - 1)
    ensures Laid(csv, [""] + fields, k)
  {
    if k > 0 {
      OffsetAfterEmpty(fields, k - 1);
      var start := Offset(fields, k - 1);
      var text := fields[k - 1];
      forall j | 0 <= j < |text| ensures csv[start + 1 + j] == text[j] && !IsSeparator(text[j]) {
        assert csv[1..][start + j] == text[j];
      }
    }
  }

  lemma LaidAfterCharacter(csv: string, fields: seq<string>, longer: seq<string>, k: nat)
    requires |csv| > 0 && !IsSeparator(csv[0]) && k < |fields| == |longer| && longer[0] == [csv[0]] + fields[0]
    requires (forall j :: 0 < j < |fields| ==> longer[j] == fields[j]) && Laid(csv[1..], fields, k)
    ensures Laid(csv, longer, k)
  {
    var start := Offset(fields, k);
    if k > 0 {
      OffsetAfterLonger(fields, longer, k);
      var text := fields[k];
      forall j | 0 <= j < |text| ensures csv[start + 1 + j] == text[j] && !IsSeparator(text[j]) {
        assert csv[1..][start + j] == text[j];
      }
    } else {
      assert Offset(longer, 0) == 0;
      forall j | 0 <= j < |longer[0]| ensures csv[j] == longer[0][j] && !IsSeparator(longer[0][j]) {
        if j > 0 {
          assert csv[1..][start + (j - 1)] == fields[0][j - 1];
        }
      }
    }
  }

  lemma {:induction false} FieldsAreLaid(csv: string, k: nat)
    requires k <= Separators(csv)
    ensures Laid(csv, Fields(csv), k)
  {
    if |csv| > 0 {
      var fields := Fields(csv[1..]);
      if IsSeparator(csv[0]) {
        if k > 0 {
          FieldsAreLaid(csv[1..], k - 1);
        }
        LaidAfterSeparator(csv, fields, k);
      } else {
        FieldsAreLaid(csv[1..], k);
        LaidAfterCharacter(csv, fields, Fields(csv), k);
      }
    }
  }

  // ---- Splitting in place ----

  // From `start` on, the buffer holds the text and its terminator.
  ghost predicate HoldsAt(buf: string, start: nat, text: string) {
    && start + |text| < |buf| && buf[start + |text|] == '\0'
    && forall j :: 0 <= j < |text| ==> buf[start + j] == text[j] != '\0'
  }

  // Read from there as a C string, it is the text.
  lemma {:induction false} HeldIsRead(buf: string, start: nat, text: string)
    requires HoldsAt(buf, start, text)
    ensures CString(buf[start..]) == text
    decreases |text|
  {
    if |text| == 0 {
      assert buf[start..][0] == '\0';
    } else {
      assert buf[start..][1..] == buf[start + 1..] && buf[start..][0] == buf[start + 0] == text[0];
      assert HoldsAt(buf, start + 1, text[1..]) by {
        forall j | 0 <= j < |text[1..]| ensures buf[start + 1 + j] == text[1..][j] != '\0' {
          assert buf[start + (j + 1)] == text[j + 1];
        }
      }
      HeldIsRead(buf, start + 1, text[1..]);
      assert [text[0]] + text[1..] == text;
    }
  }

  lemma HoldsStays(buf: string, p: nat, start: nat, text: string)
    requires HoldsAt(buf, start, text) && start + |text| < p < |buf|
    ensures HoldsAt(buf[p := '\0'], start, text)
  {
  }

  // The first c fields hold their texts; from the start of the next one the row is still there.
  ghost predicate SplitUpTo(buf: string, field: seq<nat>, csv: string, fields: seq<string>, c: nat) {
    && |buf| == |csv| + 1 && c < |fields| && c < |field|
    && field[c] == Offset(fields, c) <= |csv|
    && (forall k :: Offset(fields, c) <= k <= |csv| ==> buf[k] == if k < |csv| then csv[k] else '\0')
    && (forall k :: 0 <= k < c ==> HoldsAt(buf, field[k], fields[k]) && field[k] + |fields[k]| < Offset(fields, c))
  }

  lemma FieldEnds(buf: string, csv: string, start: nat, text: string)
    requires |buf| == |csv| + 1 && start + |text| <= |csv| && NoTerminator(csv)
    requires forall k :: start <= k < |csv| ==> buf[k] == csv[k]
    requires forall j :: 0 <= j < |text| ==> csv[start + j] == text[j]
    ensures HoldsAt(buf[start + |text| := '\0'], start, text)
  {
    var after := buf[start + |text| := '\0'];
    forall j | 0 <= j < |text| ensures after[start + j] == text[j] != '\0' {
      assert csv[start + j] == text[j];
    }
  }

  lemma EarlierFields(buf: string, field: seq<nat>, csv: string, fields: seq<string>, c: nat, p: nat)
    requires SplitUpTo(buf, field, csv, fields, c) && Offset(fields, c) <= p < |buf|
    ensures forall k :: 0 <= k < c ==> HoldsAt(buf[p := '\0'], field[k], fields[k]) && field[k] + |fields[k]| < p + 1
  {
    forall k | 0 <= k < c ensures HoldsAt(buf[p := '\0'], field[k], fields[k]) && field[k] + |fields[k]| < p + 1 {
      HoldsStays(buf, p, field[k], fields[k]);
    }
  }

  lemma RowIsStillThere(buf: string, field: seq<nat>, csv: string, fields: seq<string>, c: nat)
    requires SplitUpTo(buf, field, csv, fields, c)
    ensures |buf| == |csv| + 1 && forall k :: Offset(fields, c) <= k < |csv| ==> buf[k] == csv[k]
  {
  }

  lemma TextIsInRow(csv: string, fields: seq<string>, c: nat)
    requires c < |fields| && Laid(csv, fields, c)
    ensures Offset(fields, c) + |fields[c]| <= |csv|
    ensures c + 1 < |fields| ==> Offset(fields, c) + |fields[c]| < |csv|
    ensures forall j :: 0 <= j < |fields[c]| ==> csv[Offset(fields, c) + j] == fields[c][j]
  {
  }

  lemma SplitAt(buf: string, field: seq<nat>, csv: string, fields: seq<string>, c: nat, p: nat)
    requires SplitUpTo(buf, field, csv, fields, c) && p < |csv| && p == Offset(fields, c) + |fields[c]|
    requires c + 1 < |fields| && c + 1 < |field| && HoldsAt(buf[p := '\0'], Offset(fields, c), fields[c])
    ensures SplitUpTo(buf[p := '\0'], field[c + 1 := p + 1], csv, fields, c + 1)
  {
    EarlierFields(buf, field, csv, fields, c, p);
    SplitNext(buf[p := '\0'], field[c + 1 := p + 1], csv, fields, c);
  }

  lemma SplitNext(buf: string, field: seq<nat>, csv: string, fields: seq<string>, c: nat)
    requires |buf| == |csv| + 1 && c + 1 < |fields| && c + 1 < |field|
    requires field[c + 1] == Offset(fields, c + 1) <= |csv|
    requires forall k :: Offset(fields, c + 1) <= k <= |csv| ==> buf[k] == if k < |csv| then csv[k] else '\0'
    requires forall k :: 0 <= k < c ==>
               HoldsAt(buf, field[k], fields[k]) && field[k] + |fields[k]| < Offset(fields, c + 1)
    requires HoldsAt(buf, field[c], fields[c]) && field[c] + |fields[c]| < Offset(fields, c + 1)
    ensures SplitUpTo(buf, field, csv, fields, c + 1)
  {
  }

  lemma SplitAll(buf: string, field: seq<nat>, csv: string, fields: seq<string>, c: nat)
    requires SplitUpTo(buf, field, csv, fields, c) && Laid(csv, fields, c) && NoTerminator(csv) && c + 1 == |fields|
    ensures forall k :: 0 <= k <= c ==> HoldsAt(buf, field[k], fields[k])
  {
    var start, n := Offset(fields, c), |fields[c]|;
    FieldEnds(buf, csv, start, fields[c]);
    assert buf[start + n := '\0'] == buf;
  }

  // Overwrites each separator with a terminator and notes where the next field starts. A row
  // with more separators than the array has places for runs over its end; there it stops.
  method Split(tmp: array<char>, field: array<nat>, ghost csv: string) returns (c: nat, inBounds: bool)
    requires tmp[..] == csv + "\0" && NoTerminator(csv) && field.Length == MAX_FIELDS
    modifies tmp, field
    ensures inBounds <==> Separators(csv) < 100
    ensures inBounds ==> c == Separators(csv)
    ensures inBounds ==> forall k :: 0 <= k <= c ==> HoldsAt(tmp[..], field[k], Fields(csv)[k])
  {
    ghost var fields := Fields(csv);
    forall k | 0 <= k < |fields| ensures Laid(csv, fields, k) {
      FieldsAreLaid(csv, k);
    }
    c, inBounds := SplitLaid(tmp, field, csv, fields);
  }

  method SplitLaid(tmp: array<char>, field: array<nat>, ghost csv: string, ghost fields: seq<string>)
    returns (c: nat, inBounds: bool)
    requires tmp[..] == csv + "\0" && NoTerminator(csv)
    requires field.Length == MAX_FIELDS && 0 < |fields|
    requires forall k :: 0 <= k < |fields| ==> Laid(csv, fields, k)
    modifies tmp, field
    ensures inBounds <==> |fields| <= MAX_FIELDS
    ensures inBounds ==> c + 1 == |fields|
    ensures inBounds ==> forall k :: 0 <= k <= c ==> HoldsAt(tmp[..], field[k], fields[k])
  {
    c, inBounds := 0, true;
    field[0] := 0;
    var p := 0;
    while tmp[p] != '\0'
      invariant c < |fields| && c < MAX_FIELDS && p < tmp.Length && tmp.Length == |csv| + 1
      invariant Offset(fields, c) <= p <= Offset(fields, c) + |fields[c]|
      invariant SplitUpTo(tmp[..], field[..], csv, fields, c)
      decreases |csv| - p
    {
      assert Laid(csv, fields, c);
      assert tmp[..][p] == csv[p];
      if p < Offset(fields, c) + |fields[c]| {
        assert csv[Offset(fields, c) + (p - Offset(fields, c))] == fields[c][p - Offset(fields, c)];
      }
      if IsSeparator(tmp[p]) {
        if c + 1 == MAX_FIELDS {
          return c, false;
        }
        RowIsStillThere(tmp[..], field[..], csv, fields, c);
        TextIsInRow(csv, fields, c);
        FieldEnds(tmp[..], csv, Offset(fields, c), fields[c]);
        SplitAt(tmp[..], field[..], csv, fields, c, p);
        tmp[p] := '\0';
        p := p + 1;
        c := c + 1;
        field[c] := p;
      } else {
        p := p + 1;
      }
    }
    assert Laid(csv, fields, c);
    SplitAll(tmp[..], field[..], csv, fields, c);
  }

  // The text that starts at the given place of the buffer.
  method ReadField(tmp: array<char>, start: nat, ghost text: string) returns (r: string)
    requires HoldsAt(tmp[..], start, text)
    ensures r == text
  {
    r := "";
    var p := start;
    assert tmp[..][start + |text|] == tmp[start + |text|];
    assert |text| > 0 ==> tmp[..][start + 0] == text[0];
    while tmp[p] != '\0'
      invariant start <= p <= start + |text| < tmp.Length && r == text[..p - start]
      invariant p < start + |text| ==> tmp[p] == text[p - start] != '\0'
      decreases start + |text| - p
    {
      r := r + [tmp[p]];
      p := p + 1;
      assert p < start + |text| ==> tmp[..][start + (p - start)] == text[p - start];
    }
  }

  // The texts of all fields of a row that has been split.
  method ReadFields(tmp: array<char>, field: array<nat>, c: nat, ghost fields: seq<string>) returns (r: seq<string>)
    requires |fields| == c + 1 <= field.Length
    requires forall k :: 0 <= k <= c ==> HoldsAt(tmp[..], field[k], fields[k])
    ensures r == fields
  {
    r := [];
    for k := 0 to c + 1
      invariant r == fields[..k]
    {
      var text := ReadField(tmp, field[k], fields[k]);
      r := r + [text];
    }
  }

  // Copies a row up to its terminator, splits the copy and reads its fields; None if the row
  // runs over the array of field pointers.
  method SplitRow(csv: string) returns (fields: Option<seq<string>>)
    ensures fields == if Separators(CString(csv)) < 100 then Some(Fields(CString(csv))) else None
  {
    var field := new nat[MAX_FIELDS];
    var text := CString(csv);
    CStringHasNoTerminator(csv);
    var tmp := CopyToBuffer(text);
    var c, inBounds := Split(tmp, field, text);
    if !inBounds {
      return None;
    }
    var texts := ReadFields(tmp, field, c, Fields(text));
    fields := Some(texts);
  }

  method CopyToBuffer(text: string) returns (tmp: array<char>)
    ensures fresh(tmp) && tmp[..] == text + "\0"
  {
    var row := text + "\0";
    tmp := new char[|row|](k requires 0 <= k < |row| => row[k]);
  }

  // ---- The characters ----

  // Both characters separate, and no other does.
  lemma {:induction false} FieldsOfLine(a: string, sep: char, rest: string)
    requires sep == ';' || sep == '\n'
    requires forall k :: 0 <= k < |a| ==> a[k] != ';' && a[k] != '\n'
    ensures Fields(a) == [a]
    ensures Fields(a + [sep] + rest) == [a] + Fields(rest)
  {
    var s := a + [sep] + rest;
    if |a| == 0 {
      assert s == [sep] + rest;
      assert s[1..] == rest;
    } else {
      FieldsOfLine(a[1..], sep, rest);
      assert s[1..] == a[1..] + [sep] + rest;
      assert [a[0]] + a[1..] == a;
    }
  }

  // A C string ends at its first terminator.
  lemma {:induction false} CStringEnds(a: string, rest: string)
    requires forall k :: 0 <= k < |a| ==> a[k] != '\0'
    ensures CString(a) == CString(a + "\0" + rest) == a
  {
    if |a| == 0 {
      assert a + "\0" + rest == "\0" + rest;
    } else {
      CStringEnds(a[1..], rest);
      assert (a + "\0" + rest)[1..] == a[1..] + "\0" + rest;
      assert [a[0]] + a[1..] == a;
    }
  }
}
