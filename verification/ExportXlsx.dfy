/** The spreadsheet form of an exported report: column letters, cell addresses and what each cell of
    the sheet holds at the end. */
module ExportXlsx {
  import opened Text

  // ----- column letters ----------------------------------------------------------------------

  predicate IsLetter(c: char) {
    'A' <= c <= 'Z'
  }

  predicate AllLetters(s: string) {
    forall k :: 0 <= k < |s| ==> IsLetter(s[k])
  }

  function Letter(d: nat): (c: char)
    requires d < 26
    ensures IsLetter(c) && c as int == d + 'A' as int
  {
    (d + 'A' as int) as char
  }

  /** Bijective base 26: 1 is A, 26 is Z, 27 is AA. */
  function ColumnName(n: nat): string {
    if n == 0 then "" else ColumnName((n - 1) / 26) + [Letter((n - 1) % 26)]
  }

  function ColumnNumber(s: string): nat
    requires AllLetters(s)
  {
    if s == "" then 0 else 26 * ColumnNumber(s[..|s| - 1]) + (s[|s| - 1] as int - 'A' as int + 1)
  }

  lemma NameStep(n: nat, rest: string)
    requires n > 0
    ensures ColumnName(n) + rest == ColumnName((n - 1) / 26) + ([Letter((n - 1) % 26)] + rest)
  {
  }

  method ColName(n: int) returns (name: string)
    ensures name == if n > 0 then ColumnName(n) else ""
  {
    hide ColumnName;
    name := "";
    if n <= 0 {
      return;
    }
    var m: nat := n;
    assert ColumnName(n) == ColumnName(m) + name;
    while m > 0
      invariant ColumnName(n) == ColumnName(m) + name
    {
      NameStep(m, name);
      m := m - 1;
      name := [Letter(m % 26)] + name;
      m := m / 26;
    }
    NoName();
  }

  lemma NoName()
    ensures ColumnName(0) == ""
  {
  }

  /** Each positive number has its own non-empty name in letters, from which it can be read back. */
  lemma {:induction false} NumberOfName(n: nat)
    ensures AllLetters(ColumnName(n)) && ColumnNumber(ColumnName(n)) == n && (ColumnName(n) == "" <==> n == 0)
  {
    if n > 0 {
      var high, low := (n - 1) / 26, (n - 1) % 26;
      NumberOfName(high);
      assert ColumnName(n)[..|ColumnName(n)| - 1] == ColumnName(high);
    }
  }

  /** Each string of letters is the name of a number. */
  lemma {:induction false} NameOfNumber(s: string)
    requires AllLetters(s)
    ensures ColumnName(ColumnNumber(s)) == s
  {
    if s != "" {
      var front, d := s[..|s| - 1], s[|s| - 1] as int - 'A' as int;
      NameOfNumber(front);
      var n := ColumnNumber(s);
      assert n - 1 == 26 * ColumnNumber(front) + d;
      assert (n - 1) / 26 == ColumnNumber(front) && (n - 1) % 26 == d;
      assert s == front + [s[|s| - 1]];
    }
  }

  // ----- addresses ---------------------------------------------------------------------------

  function Address(col: nat, row: nat): string {
    ColumnName(col) + Digits(row)
  }

  lemma LettersEnd(a: string, b: string, a': string, b': string)
    requires AllLetters(a) && AllLetters(a') && AllDigits(b) && AllDigits(b') && b != "" && b' != ""
    requires a + b == a' + b'
    ensures a == a' && b == b'
  {
    var s := a + b;
    assert forall k :: 0 <= k < |a| ==> IsLetter(s[k]);
    assert forall k :: 0 <= k < |a'| ==> IsLetter((a' + b')[k]);
    assert s[|a|] == b[0] && (a' + b')[|a'|] == b'[0];
    assert IsDigit(b[0]) && IsDigit(b'[0]);
    assert |a| == |a'|;
    assert a == (a + b)[..|a|] && a' == (a' + b')[..|a'|];
    assert b == (a + b)[|a|..] && b' == (a' + b')[|a'|..];
  }

  /** No two positions share an address. */
  lemma AddressesApart(col: nat, row: nat, col': nat, row': nat)
    requires Address(col, row) == Address(col', row')
    ensures col == col' && row == row'
  {
    NumberOfName(col);
    NumberOfName(col');
    LettersEnd(ColumnName(col), Digits(row), ColumnName(col'), Digits(row'));
    ValueOfDigits(row);
    ValueOfDigits(row');
  }

  // ----- the sheet ---------------------------------------------------------------------------

  datatype Content = Number(n: int) | Label(text: string)

  /** A cell that reads as a 64-bit decimal is stored as a number. */
  function ContentOf(val: string): Content {
    match ParseInt(val) case Some(n) => Number(n) case None => Label(val)
  }

  /** What a cell holds, printed in full; a spreadsheet may display a long number in its own format. */
  function Shown(c: Content): string {
    match c case Number(n) => FormatInt(n) case Label(text) => text
  }

  /** A decimal without '+', superfluous zeros or a negative zero. */
  predicate Canonical(s: string) {
    var body := if s != "" && s[0] == '-' then s[1..] else s;
    body != "" && IsDigit(body[0]) && (body[0] == '0' ==> s == "0")
  }

  lemma {:induction false} DigitsOfValue(s: string)
    requires AllDigits(s) && s != "" && (s[0] == '0' ==> s == "0")
    ensures Digits(Value(s)) == s && (Value(s) == 0 ==> s == "0")
  {
    var front, d := s[..|s| - 1], s[|s| - 1];
    if front == "" {
      assert Value(front) == 0;
      assert s == [d];
    } else {
      DigitsOfValue(front);
      assert Value(s) / 10 == Value(front) && Value(s) % 10 == d as int - '0' as int;
      assert s == front + [d];
    }
  }

  lemma {:induction false} DigitsStart(n: nat)
    ensures Digits(n)[0] == '0' ==> n == 0
  {
    if n >= 10 {
      DigitsStart(n / 10);
    }
  }

  lemma FormatIsCanonical(n: int)
    ensures Canonical(FormatInt(n))
  {
    var k := if n < 0 then -n else n;
    DigitsStart(k);
    if n < 0 {
      assert FormatInt(n)[1..] == Digits(k);
    }
  }

  lemma CanonicalFormats(s: string)
    requires ParseInt(s).Some? && Canonical(s)
    ensures FormatInt(ParseInt(s).value) == s
  {
    if s[0] == '-' {
      DigitsOfValue(s[1..]);
      assert s == "-" + s[1..];
    } else {
      DigitsOfValue(s);
    }
  }

  /** What a cell holds, printed in full, is what the report had if and only if that is no 64-bit decimal
      or is one in canonical form. */
  lemma ShownAsGivenIff(val: string)
    ensures Shown(ContentOf(val)) == val <==> ParseInt(val).None? || Canonical(val)
  {
    if ParseInt(val).Some? {
      FormatIsCanonical(ParseInt(val).value);
      if Canonical(val) {
        CanonicalFormats(val);
      }
    }
  }

  /** The telephone column of a report loses its '+'. */
  lemma PhoneLosesPlus(phone: string)
    requires AllDigits(phone) && phone != "" && phone[0] != '0' && Value(phone) <= MAX_INT64
    ensures Shown(ContentOf("+" + phone)) == phone
  {
    assert ("+" + phone)[1..] == phone;
    DigitsOfValue(phone);
  }

  type Sheet = map<string, Content>

  /** The positions of the title, the subtitle, the headers and the cells of the rows. */
  ghost predicate Occupied(col: nat, row: nat, headers: seq<string>, rows: seq<seq<string>>) {
    || (col == 1 && 1 <= row <= 2)
    || (row == 3 && 1 <= col <= |headers|)
    || (4 <= row < 4 + |rows| && 1 <= col <= |rows[row - 4]|)
  }

  ghost predicate Written(a: string, headers: seq<string>, rows: seq<seq<string>>) {
    exists col: nat, row: nat :: a == Address(col, row) && Occupied(col, row, headers, rows)
  }

  /** Title, subtitle and headers stand where they were put. */
  ghost predicate Topped(sheet: Sheet, title: string, subtitle: string, headers: seq<string>, n: nat) {
    && Holds(sheet, 1, 1, Label(title)) && Holds(sheet, 1, 2, Label(subtitle))
    && forall i :: 0 <= i < n <= |headers| ==> Holds(sheet, i + 1, 3, Label(headers[i]))
  }

  ghost predicate Filled(sheet: Sheet, rows: seq<seq<string>>, n: nat) {
    forall r, c :: 0 <= r < n <= |rows| && 0 <= c < |rows[r]| ==>
      Holds(sheet, c + 1, r + 4, ContentOf(rows[r][c]))
  }

  ghost predicate Holds(sheet: Sheet, col: nat, row: nat, what: Content) {
    Address(col, row) in sheet && sheet[Address(col, row)] == what
  }

  lemma PutKeeps(sheet: Sheet, col: nat, row: nat, what: Content, col': nat, row': nat, what': Content)
    requires Holds(sheet, col', row', what') && (col != col' || row != row')
    ensures Holds(sheet[Address(col, row) := what], col', row', what')
  {
    if Address(col, row) == Address(col', row') {
      AddressesApart(col, row, col', row');
    }
  }

  /** A cell of row 3 or below leaves the top of the sheet alone; one of the data rows leaves the
      headers alone too. */
  lemma PutKeepsTop(sheet: Sheet, col: nat, row: nat, what: Content,
                    title: string, subtitle: string, headers: seq<string>, n: nat)
    requires Topped(sheet, title, subtitle, headers, n) && n <= |headers|
    requires row > 3 || (row == 3 && col > n)
    ensures Topped(sheet[Address(col, row) := what], title, subtitle, headers, n)
  {
    hide Address, Holds;
    PutKeeps(sheet, col, row, what, 1, 1, Label(title));
    PutKeeps(sheet, col, row, what, 1, 2, Label(subtitle));
    forall i | 0 <= i < n ensures Holds(sheet[Address(col, row) := what], i + 1, 3, Label(headers[i])) {
      PutKeeps(sheet, col, row, what, i + 1, 3, Label(headers[i]));
    }
  }

  lemma PutKeepsData(sheet: Sheet, col: nat, row: nat, what: Content, rows: seq<seq<string>>, n: nat)
    requires Filled(sheet, rows, n) && n <= |rows| && row >= n + 4
    ensures Filled(sheet[Address(col, row) := what], rows, n)
  {
    hide Address, Holds;
    forall r, c | 0 <= r < n && 0 <= c < |rows[r]|
      ensures Holds(sheet[Address(col, row) := what], c + 1, r + 4, ContentOf(rows[r][c]))
    {
      PutKeeps(sheet, col, row, what, c + 1, r + 4, ContentOf(rows[r][c]));
    }
  }

  method ExportXLSX(headers: seq<string>, rows: seq<seq<string>>, title: string, subtitle: string)
    returns (sheet: Sheet)
    ensures Topped(sheet, title, subtitle, headers, |headers|)
    ensures Filled(sheet, rows, |rows|)
    ensures forall a :: a in sheet ==> Written(a, headers, rows)
  {
    hide Address, Holds, ContentOf;
    sheet := map[Address(1, 1) := Label(title)];
    TopStarts(title, subtitle, headers);
    assert Occupied(1, 1, headers, rows) && Occupied(1, 2, headers, rows);
    sheet := sheet[Address(1, 2) := Label(subtitle)];
    var i := 0;
    while i < |headers|
      invariant 0 <= i <= |headers|
      invariant Topped(sheet, title, subtitle, headers, i)
      invariant forall a :: a in sheet ==> Written(a, headers, rows)
    {
      var col := ColName(i + 1);
      PutKeepsTop(sheet, i + 1, 3, Label(headers[i]), title, subtitle, headers, i);
      assert Occupied(i + 1, 3, headers, rows);
      HeaderPut(sheet, title, subtitle, headers, i);
      AddressParts(i + 1, 3);
      sheet := sheet[col + "3" := Label(headers[i])];
      i := i + 1;
    }
    var ri := 0;
    while ri < |rows|
      invariant 0 <= ri <= |rows|
      invariant Topped(sheet, title, subtitle, headers, |headers|) && Filled(sheet, rows, ri)
      invariant forall a :: a in sheet ==> Written(a, headers, rows)
    {
      sheet := PutRow(sheet, headers, rows, title, subtitle, ri);
      ri := ri + 1;
    }
  }

  method PutRow(before: Sheet, headers: seq<string>, rows: seq<seq<string>>, title: string, subtitle: string, ri: nat)
    returns (sheet: Sheet)
    requires ri < |rows| && Topped(before, title, subtitle, headers, |headers|) && Filled(before, rows, ri)
    requires forall a :: a in before ==> Written(a, headers, rows)
    ensures Topped(sheet, title, subtitle, headers, |headers|) && Filled(sheet, rows, ri + 1)
    ensures forall a :: a in sheet ==> Written(a, headers, rows)
  {
    hide Address, Holds, ContentOf, Topped;
    sheet := before;
    var rowNum := ri + 4;
    var row := rows[ri];
    var ci := 0;
    while ci < |row|
      invariant 0 <= ci <= |row|
      invariant Topped(sheet, title, subtitle, headers, |headers|) && Filled(sheet, rows, ri)
      invariant forall c :: 0 <= c < ci ==> Holds(sheet, c + 1, rowNum, ContentOf(row[c]))
      invariant forall a :: a in sheet ==> Written(a, headers, rows)
    {
      var col := ColName(ci + 1);
      var what := ContentOf(row[ci]);
      PutKeepsTop(sheet, ci + 1, rowNum, what, title, subtitle, headers, |headers|);
      PutKeepsData(sheet, ci + 1, rowNum, what, rows, ri);
      ghost var next := sheet[Address(ci + 1, rowNum) := what];
      forall c | 0 <= c < ci ensures Holds(next, c + 1, rowNum, ContentOf(row[c])) {
        PutKeeps(sheet, ci + 1, rowNum, what, c + 1, rowNum, ContentOf(row[c]));
      }
      PutHolds(sheet, ci + 1, rowNum, what);
      assert Occupied(ci + 1, rowNum, headers, rows);
      AddressParts(ci + 1, rowNum);
      sheet := sheet[col + Digits(rowNum) := what];
      ci := ci + 1;
    }
  }

  lemma AddressParts(col: nat, row: nat)
    ensures Address(col, row) == ColumnName(col) + Digits(row) && Digits(3) == "3"
  {
  }

  lemma PutHolds(sheet: Sheet, col: nat, row: nat, what: Content)
    ensures Holds(sheet[Address(col, row) := what], col, row, what)
  {
  }

  lemma TopStarts(title: string, subtitle: string, headers: seq<string>)
    ensures Topped(map[Address(1, 1) := Label(title)][Address(1, 2) := Label(subtitle)], title, subtitle, headers, 0)
    ensures Address(1, 1) == "A1" && Address(1, 2) == "A2"
  {
    assert ColumnName(1) == ColumnName(0) + "A" == "A";
    PutHolds(map[], 1, 1, Label(title));
    PutKeeps(map[Address(1, 1) := Label(title)], 1, 2, Label(subtitle), 1, 1, Label(title));
    PutHolds(map[Address(1, 1) := Label(title)], 1, 2, Label(subtitle));
  }

  lemma HeaderPut(sheet: Sheet, title: string, subtitle: string, headers: seq<string>, i: nat)
    requires i < |headers| && Topped(sheet, title, subtitle, headers, i)
    ensures Topped(sheet[Address(i + 1, 3) := Label(headers[i])], title, subtitle, headers, i + 1)
  {
    hide Address, Holds;
    PutKeepsTop(sheet, i + 1, 3, Label(headers[i]), title, subtitle, headers, i);
    PutHolds(sheet, i + 1, 3, Label(headers[i]));
  }
}
