/**
 * The conversion driver of qfx.py: find the header row of the CSV, turn the
 * data rows into transactions one by one while tracking the account, the
 * date range and the securities seen, and assemble the OFX document.
 */
module Assembler {
  import opened Wrappers
  import opened Text
  import opened Headers
  import opened Records
  import opened Generators

  // ---------------------------------------------------------------------
  // Output file name

  /** _output_from_input: a trailing ".csv" is replaced by ".qfx", anything else gets ".qfx" appended. */
  function OutputName(input: string): (r: string)
    ensures EndsWith(r, ".qfx")
  {
    if EndsWith(input, ".csv") then input[..|input| - 4] + ".qfx" else input + ".qfx"
  }

  /** The output name keeps the input's stem: the name with its ".csv" removed, or the whole name. */
  lemma OutputNameStem(stem: string)
    ensures OutputName(stem + ".csv") == stem + ".qfx"
    ensures !EndsWith(stem, ".csv") ==> OutputName(stem) == stem + ".qfx"
  {
    var s := stem + ".csv";
    assert s[|s| - 4..] == ".csv";
    assert s[..|s| - 4] == stem;
  }

  // ---------------------------------------------------------------------
  // Header row and data rows

  /**
   * The header test applied to each CSV row until it succeeds: a non-empty
   * row whose first two fields are 'Date' and 'Account'. A row holding only
   * 'Date' makes the second field lookup fail.
   */
  function HeaderTest(line: seq<string>): (r: Result<bool, Error>)
    ensures r.Err? <==> |line| == 1 && Trim(line[0]) == "Date"
    ensures r.Err? ==> r.error == ShortHeaderRow
    ensures r == Ok(true) <==> |line| >= 2 && Trim(line[0]) == "Date" && Trim(line[1]) == "Account"
  {
    if |line| == 0 || Trim(line[0]) != "Date" then Ok(false)
    else if |line| < 2 then Err(ShortHeaderRow)
    else Ok(Trim(line[1]) == "Account")
  }

  /** The rows after the header up to, and without, the first blank one. */
  function DataRows(lines: seq<seq<string>>): seq<seq<string>> {
    if lines == [] || RowIsEmpty(lines[0]) then [] else [lines[0]] + DataRows(lines[1..])
  }

  /** The data rows are the longest prefix without a blank row. */
  lemma {:induction false} DataRowsPrefix(lines: seq<seq<string>>)
    ensures var r := DataRows(lines);
      && |r| <= |lines| && r == lines[..|r|]
      && (forall i :: 0 <= i < |r| ==> !RowIsEmpty(r[i]))
      && (|r| < |lines| ==> RowIsEmpty(lines[|r|]))
  {
    if lines != [] && !RowIsEmpty(lines[0]) {
      DataRowsPrefix(lines[1..]);
      var rest := DataRows(lines[1..]);
      assert lines[1..][..|rest|] == lines[1..|rest| + 1];
    }
  }

  /** The header row and the data rows of a CSV file. */
  datatype Table = Table(header: seq<string>, rows: seq<seq<string>>)

  /** The table after the first header row, or why there is none. */
  function SplitTable(lines: seq<seq<string>>): Result<Table, Error> {
    if lines == [] then Err(HeaderNotFound)
    else
      var isHeader :- HeaderTest(lines[0]);
      if isHeader then Ok(Table(lines[0], DataRows(lines[1..])))
      else SplitTable(lines[1..])
  }

  /**
   * The header is the first row that passes the test, every row before it
   * fails the test without error, and the data rows follow it directly.
   */
  lemma {:induction false} SplitTableFinds(lines: seq<seq<string>>) returns (h: nat)
    requires SplitTable(lines).Ok?
    ensures h < |lines| && HeaderTest(lines[h]) == Ok(true)
    ensures forall k :: 0 <= k < h ==> HeaderTest(lines[k]) == Ok(false)
    ensures SplitTable(lines).value == Table(lines[h], DataRows(lines[h + 1..]))
  {
    if HeaderTest(lines[0]) == Ok(true) {
      h := 0;
    } else {
      var rest := SplitTableFinds(lines[1..]);
      h := rest + 1;
      assert lines[1..][rest + 1..] == lines[h + 1..];
      assert forall k :: 1 <= k < h ==> lines[k] == lines[1..][k - 1];
    }
  }

  /** The file has no header exactly when every row fails the test without error. */
  lemma {:induction false} SplitTableMissing(lines: seq<seq<string>>)
    ensures SplitTable(lines) == Err(HeaderNotFound) <==> forall k :: 0 <= k < |lines| ==> HeaderTest(lines[k]) == Ok(false)
  {
    if lines != [] && HeaderTest(lines[0]) == Ok(false) {
      SplitTableMissing(lines[1..]);
      assert forall k :: 1 <= k < |lines| ==> lines[k] == lines[1..][k - 1];
    }
  }

  /** The test on the i-th row decides the table of the rows from the i-th on. */
  lemma SplitTableAt(lines: seq<seq<string>>, i: nat)
    requires i < |lines|
    ensures SplitTable(lines[i..]) == match HeaderTest(lines[i])
      case Err(e) => Err(e)
      case Ok(isHeader) =>
        if isHeader then Ok(Table(lines[i], DataRows(lines[i + 1..]))) else SplitTable(lines[i + 1..])
  {
    assert lines[i..][0] == lines[i] && lines[i..][1..] == lines[i + 1..];
  }

  /** The data rows from the i-th on: none at a blank row, else that row and the ones after it. */
  lemma DataRowsAt(lines: seq<seq<string>>, i: nat)
    requires i < |lines|
    ensures DataRows(lines[i..]) == if RowIsEmpty(lines[i]) then [] else [lines[i]] + DataRows(lines[i + 1..])
  {
    assert lines[i..][0] == lines[i] && lines[i..][1..] == lines[i + 1..];
  }

  /**
   * The source's scan of the CSV rows: skip rows until the header is found,
   * then collect rows until the first blank one.
   */
  method ReadTable(lines: seq<seq<string>>) returns (r: Result<Table, Error>)
    ensures r == SplitTable(lines)
  {
    var searching := true;
    var header: seq<string> := [];
    var rows: seq<seq<string>> := [];
    var i := 0;
    while i < |lines|
      invariant 0 <= i <= |lines|
      invariant searching ==> SplitTable(lines) == SplitTable(lines[i..])
      invariant !searching ==> SplitTable(lines) == Ok(Table(header, rows + DataRows(lines[i..])))
    {
      var line := lines[i];
      if searching {
        SplitTableAt(lines, i);
        var test := HeaderTest(line);
        if test.Err? {
          return Err(test.error);
        }
        if test.value {
          assert [] + DataRows(lines[i + 1..]) == DataRows(lines[i + 1..]);
          header, searching, rows := line, false, [];
        }
      } else {
        DataRowsAt(lines, i);
        if RowIsEmpty(line) {
          assert rows + DataRows(lines[i..]) == rows;
          return Ok(Table(header, rows));
        }
        assert rows + DataRows(lines[i..]) == (rows + [line]) + DataRows(lines[i + 1..]);
        rows := rows + [line];
      }
      i := i + 1;
    }
    assert lines[i..] == [];
    if searching {
      return Err(HeaderNotFound);
    }
    assert rows + DataRows(lines[i..]) == rows;
    r := Ok(Table(header, rows));
  }



  /** The header row's fields, normalised. */
  function NormalizedNames(header: seq<string>): seq<string> {
    seq(|header|, i requires 0 <= i < |header| => NormalizeHeader(header[i]))
  }

  /** dict(zip(names, values)): pairs up to the shorter sequence; a repeated name keeps its last value. */
  function ZipRow(names: seq<string>, values: seq<string>): Row
    decreases |names|
  {
    var n := if |names| < |values| then |names| else |values|;
    if n == 0 then map[]
    else ZipRow(names[..n - 1], values[..n - 1])[names[n - 1] := values[n - 1]]
  }

  /** Every data row zipped with the column names. */
  function Zipped(names: seq<string>, rows: seq<seq<string>>): seq<Row> {
    seq(|rows|, i requires 0 <= i < |rows| => ZipRow(names, rows[i]))
  }

  /**
   * The columns of a zipped row are the names with a value, and each holds
   * the value at the last position of its name.
   */
  lemma {:induction false} ZipRowLookup(names: seq<string>, values: seq<string>, j: nat)
    requires j < |names| && j < |values|
    ensures names[j] in ZipRow(names, values)
    ensures (forall l :: j < l < |names| && l < |values| ==> names[l] != names[j])
            ==> ZipRow(names, values)[names[j]] == values[j]
    decreases |names|
  {
    var n := if |names| < |values| then |names| else |values|;
    if j < n - 1 {
      ZipRowLookup(names[..n - 1], values[..n - 1], j);
    }
  }

  /** Every column of a zipped row is one of the names. */
  lemma {:induction false} ZipRowKeys(names: seq<string>, values: seq<string>, key: string)
    requires key in ZipRow(names, values)
    ensures exists j :: 0 <= j < |names| && j < |values| && names[j] == key
    decreases |names|
  {
    var n := if |names| < |values| then |names| else |values|;
    if key != names[n - 1] {
      ZipRowKeys(names[..n - 1], values[..n - 1], key);
    }
  }

  /**
   * In the i-th zipped data row, the normalised name of the j-th header
   * field is a column, and it holds the row's j-th field unless a later
   * field of the row has a header with the same normalised name.
   */
  lemma ZippedColumn(header: seq<string>, rows: seq<seq<string>>, i: nat, j: nat)
    requires i < |rows| && j < |header| && j < |rows[i]|
    ensures var row := Zipped(NormalizedNames(header), rows)[i];
      && NormalizeHeader(header[j]) in row
      && ((forall l :: j < l < |header| && l < |rows[i]| ==> NormalizeHeader(header[l]) != NormalizeHeader(header[j]))
          ==> row[NormalizeHeader(header[j])] == rows[i][j])
  {
    var names := NormalizedNames(header);
    assert Zipped(names, rows)[i] == ZipRow(names, rows[i]);
    assert forall l :: 0 <= l < |header| ==> names[l] == NormalizeHeader(header[l]);
    ZipRowLookup(names, rows[i], j);
  }

  // ---------------------------------------------------------------------
  // The row loop

  /** What the row loop has gathered so far. */
  datatype Summary = Summary(
    firstAccount: Option<string>,
    minDate: Option<CalendarDate>,
    maxDate: Option<CalendarDate>,
    securities: seq<SecurityInfo>,
    transactions: seq<TransactionEntry>)

  const Initial: Summary := Summary(None, None, None, [], [])

  /** The keys of the SECLIST entries, in insertion order. */
  function Keys(securities: seq<SecurityInfo>): (r: seq<string>)
    ensures |r| == |securities|
    ensures forall i :: 0 <= i < |r| ==> r[i] == securities[i].uniqueId
  {
    if securities == [] then [] else Keys(securities[..|securities| - 1]) + [securities[|securities| - 1].uniqueId]
  }

  /** No two entries share a key. */
  predicate DistinctKeys(securities: seq<SecurityInfo>) {
    forall i, j :: 0 <= i < j < |securities| ==> securities[i].uniqueId != securities[j].uniqueId
  }

  /** The earlier of the date so far and a row's date. */
  function Earlier(m: Option<CalendarDate>, d: Option<CalendarDate>): (r: Option<CalendarDate>)
    ensures r == m || r == d
    ensures r.Some? <==> m.Some? || d.Some?
    ensures r.Some? && m.Some? ==> !Before(m.value, r.value)
    ensures r.Some? && d.Some? ==> !Before(d.value, r.value)
  {
    if d.Some? && (m.None? || Before(d.value, m.value)) then d else m
  }

  /** The later of the date so far and a row's date. */
  function Later(m: Option<CalendarDate>, d: Option<CalendarDate>): (r: Option<CalendarDate>)
    ensures r == m || r == d
    ensures r.Some? <==> m.Some? || d.Some?
    ensures r.Some? && m.Some? ==> !Before(r.value, m.value)
    ensures r.Some? && d.Some? ==> !Before(r.value, d.value)
  {
    if d.Some? && (m.None? || Before(m.value, d.value)) then d else m
  }

  /** A row's SECLIST entry is added unless an entry with its key is already there. */
  function AddSecurity(securities: seq<SecurityInfo>, info: Option<SecurityInfo>): seq<SecurityInfo> {
    if info.Some? && info.value.uniqueId !in Keys(securities) then securities + [info.value] else securities
  }

  /**
   * The SECLIST only grows, its keys stay distinct, the offered key is
   * present afterwards, and an entry whose key is already there is dropped:
   * the first entry of each key wins.
   */
  lemma AddSecurityKeeps(securities: seq<SecurityInfo>, info: Option<SecurityInfo>)
    ensures var r := AddSecurity(securities, info);
      && securities <= r
      && (DistinctKeys(securities) ==> DistinctKeys(r))
      && (info.Some? ==> info.value.uniqueId in Keys(r))
      && (info.None? || info.value.uniqueId in Keys(securities) ==> r == securities)
  {
  }

  /** The date a data row carries, if its Date column parses. */
  function RowDate(env: Env, row: Row): Option<CalendarDate> {
    if "Date" in row then ParseDate(env, row["Date"]) else None
  }

  /** The per-row transaction generator the loop calls, as a value. */
  type Generator = (Row, nat) -> Result<Generated, Error>

  /** generate_transaction under the given configuration. */
  function Gen(env: Env): Generator {
    (row: Row, counter: nat) => GenerateTransaction(env, row, counter)
  }

  /** The generator's result for a row and its counter. */
  function Generate(gen: Generator, row: Row, counter: nat): Result<Generated, Error> {
    gen(row, counter)
  }

  /** One pass of the loop body on the counter-th row. */
  function Step(env: Env, gen: Generator, s: Summary, row: Row, counter: nat): Result<Summary, Error> {
    var first :- if s.firstAccount.Some? then Ok(s.firstAccount)
                 else var account :- Stripped(row, "Account"); Ok(Some(account));
    var dateText :- Field(row, "Date");
    var date := ParseDate(env, dateText);
    var g :- Generate(gen, row, counter);
    Ok(Summary(first, Earlier(s.minDate, date), Later(s.maxDate, date),
               AddSecurity(s.securities, g.security), s.transactions + [g.entry]))
  }

  /** The loop over the data rows from the counter-th on, stopping at the first error. */
  function Run(env: Env, gen: Generator, s: Summary, rows: seq<Row>, counter: nat)
    : Result<Summary, Error>
    decreases |rows|
  {
    if rows == [] then Ok(s)
    else
      var next :- Step(env, gen, s, rows[0], counter);
      Run(env, gen, next, rows[1..], counter + 1)
  }

  /** One turn of the loop: the first row's step, then the rest. */
  lemma RunStep(env: Env, gen: Generator, s: Summary, rows: seq<Row>, counter: nat)
    requires rows != []
    ensures var st := Step(env, gen, s, rows[0], counter);
      Run(env, gen, s, rows, counter)
      == if st.Err? then Err(st.error) else Run(env, gen, st.value, rows[1..], counter + 1)
  {
  }

  /** A successful run on rows made its first step and then ran on the rest. */
  lemma RunTail(env: Env, gen: Generator, s: Summary, rows: seq<Row>, counter: nat)
    requires rows != [] && Run(env, gen, s, rows, counter).Ok?
    ensures Step(env, gen, s, rows[0], counter).Ok?
    ensures Run(env, gen, s, rows, counter) == Run(env, gen, Step(env, gen, s, rows[0], counter).value, rows[1..], counter + 1)
  {
  }

  /**
   * What the loop keeps about the account and the transactions: the first
   * account once set, and one transaction per row appended in row order.
   */
  lemma {:induction false} RunTransactions(env: Env, gen: Generator, s: Summary, rows: seq<Row>, counter: nat)
    requires Run(env, gen, s, rows, counter).Ok?
    ensures var t := Run(env, gen, s, rows, counter).value;
      && (s.firstAccount.Some? ==> t.firstAccount == s.firstAccount)
      && (rows != [] ==> t.firstAccount.Some?)
      && |t.transactions| == |s.transactions| + |rows|
      && s.transactions <= t.transactions
    decreases |rows|
  {
    if rows != [] {
      var next := Step(env, gen, s, rows[0], counter).value;
      RunTransactions(env, gen, next, rows[1..], counter + 1);
    }
  }

  /** The SECLIST entry a row's generated fragment offers, or none when it was not generated. */
  function OfferOf(g: Result<Generated, Error>): Option<SecurityInfo> {
    if g.Ok? then g.value.security else None
  }

  /** The entries the rows offer, in row order, the first row with the given counter. */
  function Offered(gen: Generator, rows: seq<Row>, counter: nat): (r: seq<Option<SecurityInfo>>)
    ensures |r| == |rows|
    decreases |rows|
  {
    if rows == [] then [] else [OfferOf(Generate(gen, rows[0], counter))] + Offered(gen, rows[1..], counter + 1)
  }

  /** The i-th offer is what the generator made of the i-th row with counter + i. */
  lemma {:induction false} OfferedAt(gen: Generator, rows: seq<Row>, counter: nat, i: nat)
    requires i < |rows|
    ensures Offered(gen, rows, counter)[i] == OfferOf(Generate(gen, rows[i], counter + i))
    decreases i
  {
    if i > 0 {
      OfferedAt(gen, rows[1..], counter + 1, i - 1);
      assert rows[1..][i - 1] == rows[i];
    }
  }

  /** The SECLIST after each offer in turn went through AddSecurity. */
  function AddAll(securities: seq<SecurityInfo>, offers: seq<Option<SecurityInfo>>): seq<SecurityInfo>
    decreases |offers|
  {
    if offers == [] then securities else AddAll(AddSecurity(securities, offers[0]), offers[1..])
  }

  /** The loop's SECLIST is what adding the rows' offers in row order gives. */
  lemma {:induction false} RunSecuritiesFold(env: Env, gen: Generator, s: Summary, rows: seq<Row>, counter: nat)
    requires Run(env, gen, s, rows, counter).Ok?
    ensures Run(env, gen, s, rows, counter).value.securities == AddAll(s.securities, Offered(gen, rows, counter))
    decreases |rows|
  {
    if rows != [] {
      RunTail(env, gen, s, rows, counter);
      StepOutput(env, gen, s, rows[0], counter);
      var next := Step(env, gen, s, rows[0], counter).value;
      RunSecuritiesFold(env, gen, next, rows[1..], counter + 1);
      var offers := Offered(gen, rows, counter);
      assert offers[0] == OfferOf(Generate(gen, rows[0], counter));
      assert offers[1..] == Offered(gen, rows[1..], counter + 1);
    }
  }

  /** An offer carrying this key. */
  predicate OffersKey(o: Option<SecurityInfo>, key: string) {
    o.Some? && o.value.uniqueId == key
  }

  /** A key is among the keys of a list exactly when some entry carries it. */
  lemma KeysHas(securities: seq<SecurityInfo>, key: string)
    ensures key in Keys(securities) <==> exists k :: 0 <= k < |securities| && securities[k].uniqueId == key
  {
    if key in Keys(securities) {
      var k :| 0 <= k < |securities| && Keys(securities)[k] == key;
    }
  }

  /** Adding an offer without the key keeps the key missing. */
  lemma AddSecurityKeepsMissing(securities: seq<SecurityInfo>, o: Option<SecurityInfo>, key: string)
    requires key !in Keys(securities) && !OffersKey(o, key)
    ensures key !in Keys(AddSecurity(securities, o))
  {
    var r := AddSecurity(securities, o);
    KeysHas(securities, key);
    KeysHas(r, key);
    forall k | 0 <= k < |r| ensures r[k].uniqueId != key {
      if k < |securities| {
        assert r[k] == securities[k];
      }
    }
  }

  /** Offers only add: the list grows and its keys stay distinct. */
  lemma {:induction false} AddAllGrows(securities: seq<SecurityInfo>, offers: seq<Option<SecurityInfo>>)
    ensures securities <= AddAll(securities, offers)
    ensures DistinctKeys(securities) ==> DistinctKeys(AddAll(securities, offers))
    decreases |offers|
  {
    if offers != [] {
      AddSecurityKeeps(securities, offers[0]);
      AddAllGrows(AddSecurity(securities, offers[0]), offers[1..]);
    }
  }

  /** A key in a list is still a key of any list it is a prefix of. */
  lemma KeyInPrefix(a: seq<SecurityInfo>, b: seq<SecurityInfo>, key: string)
    requires a <= b && key in Keys(a)
    ensures key in Keys(b)
  {
    KeysHas(a, key);
    KeysHas(b, key);
    var k :| 0 <= k < |a| && a[k].uniqueId == key;
    assert b[k] == a[k];
  }

  /** The first offer of a key the list lacks is the entry that ends up in it. */
  lemma {:induction false} AddAllFirstIn(securities: seq<SecurityInfo>, offers: seq<Option<SecurityInfo>>, i: nat, key: string)
    requires i < |offers| && OffersKey(offers[i], key) && key !in Keys(securities)
    requires forall l :: 0 <= l < i ==> !OffersKey(offers[l], key)
    ensures offers[i].value in AddAll(securities, offers)
    decreases i
  {
    var next := AddSecurity(securities, offers[0]);
    AddAllGrows(next, offers[1..]);
    if i == 0 {
      assert next == securities + [offers[0].value];
      assert next[|securities|] == offers[0].value;
    } else {
      AddSecurityKeepsMissing(securities, offers[0], key);
      assert offers[1..][i - 1] == offers[i];
      forall l | 0 <= l < i - 1 ensures !OffersKey(offers[1..][l], key) {
        assert offers[1..][l] == offers[l + 1];
      }
      AddAllFirstIn(next, offers[1..], i - 1, key);
    }
  }

  /** Every entry beyond the starting list is one of the offers. */
  lemma {:induction false} AddAllOrigin(securities: seq<SecurityInfo>, offers: seq<Option<SecurityInfo>>, j: nat)
    returns (i: nat)
    requires |securities| <= j < |AddAll(securities, offers)|
    ensures i < |offers| && offers[i] == Some(AddAll(securities, offers)[j])
    decreases |offers|
  {
    if offers == [] {
      assert false;
    }
    var next := AddSecurity(securities, offers[0]);
    AddAllGrows(next, offers[1..]);
    if j < |next| {
      i := 0;
      assert next[j] == offers[0].value;
    } else {
      var k := AddAllOrigin(next, offers[1..], j);
      i := k + 1;
    }
  }

  /** Every offered key is a key of the final list. */
  lemma {:induction false} AddAllCovered(securities: seq<SecurityInfo>, offers: seq<Option<SecurityInfo>>, i: nat)
    requires i < |offers| && offers[i].Some?
    ensures offers[i].value.uniqueId in Keys(AddAll(securities, offers))
    decreases i
  {
    var next := AddSecurity(securities, offers[0]);
    if i == 0 {
      AddSecurityKeeps(securities, offers[0]);
      AddAllGrows(next, offers[1..]);
      KeyInPrefix(next, AddAll(next, offers[1..]), offers[0].value.uniqueId);
    } else {
      assert offers[1..][i - 1] == offers[i];
      AddAllCovered(next, offers[1..], i - 1);
    }
  }

  /**
   * What the loop keeps about the SECLIST: entries are only ever added,
   * never replaced, and keys stay distinct.
   */
  lemma RunSecurities(env: Env, gen: Generator, s: Summary, rows: seq<Row>, counter: nat)
    requires Run(env, gen, s, rows, counter).Ok?
    ensures var t := Run(env, gen, s, rows, counter).value;
      && s.securities <= t.securities
      && (DistinctKeys(s.securities) ==> DistinctKeys(t.securities))
  {
    RunSecuritiesFold(env, gen, s, rows, counter);
    AddAllGrows(s.securities, Offered(gen, rows, counter));
  }

  /** The counter-th row's generated fragment carries a SECLIST entry with this key. */
  predicate Offers(gen: Generator, row: Row, counter: nat, key: string) {
    OffersKey(OfferOf(Generate(gen, row, counter)), key)
  }

  /** With distinct keys, an entry present in the list is the only one under its key. */
  lemma KeyedEntryUnique(securities: seq<SecurityInfo>, info: SecurityInfo)
    requires DistinctKeys(securities) && info in securities
    ensures forall j :: 0 <= j < |securities| && securities[j].uniqueId == info.uniqueId ==> securities[j] == info
  {
  }

  /**
   * The first entry of each key wins: when no earlier row offered a key the
   * list lacks, the i-th row's entry under that key is the one the final
   * SECLIST holds, and no other entry has that key.
   */
  lemma RunFirstOfferKept(env: Env, gen: Generator, s: Summary, rows: seq<Row>, counter: nat,
                          i: nat, key: string)
    requires Run(env, gen, s, rows, counter).Ok? && i < |rows|
    requires Offers(gen, rows[i], counter + i, key) && key !in Keys(s.securities)
    requires forall l :: 0 <= l < i ==> !Offers(gen, rows[l], counter + l, key)
    ensures var t := Run(env, gen, s, rows, counter).value;
      var info := Generate(gen, rows[i], counter + i).value.security.value;
      && info in t.securities
      && (DistinctKeys(s.securities) ==>
            forall j :: 0 <= j < |t.securities| && t.securities[j].uniqueId == key ==> t.securities[j] == info)
  {
    var t := Run(env, gen, s, rows, counter).value;
    var offers := Offered(gen, rows, counter);
    RunSecuritiesFold(env, gen, s, rows, counter);
    OfferedAt(gen, rows, counter, i);
    forall l | 0 <= l < i ensures !OffersKey(offers[l], key) {
      OfferedAt(gen, rows, counter, l);
    }
    AddAllFirstIn(s.securities, offers, i, key);
    AddAllGrows(s.securities, offers);
    if DistinctKeys(s.securities) {
      KeyedEntryUnique(t.securities, offers[i].value);
    }
  }

  /** Every entry the loop appended to the SECLIST was offered by one of the rows. */
  lemma RunSecurityOrigin(env: Env, gen: Generator, s: Summary, rows: seq<Row>, counter: nat, j: nat)
    returns (i: nat)
    requires Run(env, gen, s, rows, counter).Ok?
    requires |s.securities| <= j < |Run(env, gen, s, rows, counter).value.securities|
    ensures i < |rows| && Generate(gen, rows[i], counter + i).Ok?
    ensures Generate(gen, rows[i], counter + i).value.security == Some(Run(env, gen, s, rows, counter).value.securities[j])
  {
    RunSecuritiesFold(env, gen, s, rows, counter);
    i := AddAllOrigin(s.securities, Offered(gen, rows, counter), j);
    OfferedAt(gen, rows, counter, i);
  }

  /** One step appends the row's transaction and offers the row's SECLIST entry. */
  lemma StepOutput(env: Env, gen: Generator, s: Summary, row: Row, counter: nat)
    requires Step(env, gen, s, row, counter).Ok?
    ensures Generate(gen, row, counter).Ok?
    ensures Step(env, gen, s, row, counter).value.transactions == s.transactions + [Generate(gen, row, counter).value.entry]
    ensures Step(env, gen, s, row, counter).value.securities == AddSecurity(s.securities, Generate(gen, row, counter).value.security)
  {
  }

  /**
   * The counter goes up by one per row: the transaction at position i of the
   * rows is what the generator made of the i-th row with counter + i.
   */
  lemma {:induction false} RunEntry(env: Env, gen: Generator, s: Summary, rows: seq<Row>, counter: nat, i: nat)
    requires Run(env, gen, s, rows, counter).Ok? && i < |rows|
    ensures var t := Run(env, gen, s, rows, counter).value;
      && Generate(gen, rows[i], counter + i).Ok?
      && |s.transactions| + i < |t.transactions|
      && t.transactions[|s.transactions| + i] == Generate(gen, rows[i], counter + i).value.entry
    decreases i
  {
    var row := rows[0];
    RunStep(env, gen, s, rows, counter);
    StepOutput(env, gen, s, row, counter);
    var next := Step(env, gen, s, row, counter).value;
    if i > 0 {
      RunEntry(env, gen, next, rows[1..], counter + 1, i - 1);
      assert rows[1..][i - 1] == rows[i];
    } else {
      RunTransactions(env, gen, next, rows[1..], counter + 1);
    }
  }


  /** Every SECLIST entry the i-th row offers is in the final list under its key. */
  lemma RunKeyCovered(env: Env, gen: Generator, s: Summary, rows: seq<Row>, counter: nat, i: nat)
    requires Run(env, gen, s, rows, counter).Ok? && i < |rows|
    ensures var t := Run(env, gen, s, rows, counter).value;
      var g := Generate(gen, rows[i], counter + i);
      g.Ok? && g.value.security.Some? ==> g.value.security.value.uniqueId in Keys(t.securities)
  {
    RunSecuritiesFold(env, gen, s, rows, counter);
    OfferedAt(gen, rows, counter, i);
    var g := Generate(gen, rows[i], counter + i);
    if g.Ok? && g.value.security.Some? {
      AddAllCovered(s.securities, Offered(gen, rows, counter), i);
    }
  }

  /** Not-before is transitive on calendar dates. */
  lemma NotBeforeTrans(a: CalendarDate, b: CalendarDate, c: CalendarDate)
    requires !Before(a, b) && !Before(b, c)
    ensures !Before(a, c)
  {
  }

  /** One step moves each end of the date range by the row's date and nothing else. */
  lemma StepDates(env: Env, gen: Generator, s: Summary, row: Row, counter: nat)
    requires Step(env, gen, s, row, counter).Ok?
    ensures Step(env, gen, s, row, counter).value.minDate == Earlier(s.minDate, RowDate(env, row))
    ensures Step(env, gen, s, row, counter).value.maxDate == Later(s.maxDate, RowDate(env, row))
  {
  }

  /**
   * The start of the date range is the earliest date that parses, and
   * nothing when none does.
   */
  lemma {:induction false} RunMinDate(env: Env, gen: Generator, s: Summary, rows: seq<Row>, counter: nat)
    requires Run(env, gen, s, rows, counter).Ok?
    ensures var t := Run(env, gen, s, rows, counter).value;
      && (s.minDate.Some? ==> t.minDate.Some? && !Before(s.minDate.value, t.minDate.value))
      && (forall i :: 0 <= i < |rows| && RowDate(env, rows[i]).Some? ==>
            t.minDate.Some? && !Before(RowDate(env, rows[i]).value, t.minDate.value))
      && (t.minDate == s.minDate || exists i :: 0 <= i < |rows| && t.minDate == RowDate(env, rows[i]))
    decreases |rows|
  {
    if rows != [] {
      var row := rows[0];
      RunStep(env, gen, s, rows, counter);
      StepDates(env, gen, s, row, counter);
      var next := Step(env, gen, s, row, counter).value;
      RunMinDate(env, gen, next, rows[1..], counter + 1);
      var t := Run(env, gen, next, rows[1..], counter + 1).value;
      if s.minDate.Some? {
        NotBeforeTrans(s.minDate.value, next.minDate.value, t.minDate.value);
      }
      forall i | 0 <= i < |rows| && RowDate(env, rows[i]).Some?
        ensures t.minDate.Some? && !Before(RowDate(env, rows[i]).value, t.minDate.value)
      {
        if i == 0 {
          NotBeforeTrans(RowDate(env, row).value, next.minDate.value, t.minDate.value);
        } else {
          assert rows[1..][i - 1] == rows[i];
        }
      }
      if t.minDate != s.minDate && t.minDate != next.minDate {
        var i :| 0 <= i < |rows[1..]| && t.minDate == RowDate(env, rows[1..][i]);
        assert rows[1..][i] == rows[i + 1];
      }
    }
  }

  /**
   * The end of the date range is the latest date that parses, and nothing
   * when none does.
   */
  lemma {:induction false} RunMaxDate(env: Env, gen: Generator, s: Summary, rows: seq<Row>, counter: nat)
    requires Run(env, gen, s, rows, counter).Ok?
    ensures var t := Run(env, gen, s, rows, counter).value;
      && (s.maxDate.Some? ==> t.maxDate.Some? && !Before(t.maxDate.value, s.maxDate.value))
      && (forall i :: 0 <= i < |rows| && RowDate(env, rows[i]).Some? ==>
            t.maxDate.Some? && !Before(t.maxDate.value, RowDate(env, rows[i]).value))
      && (t.maxDate == s.maxDate || exists i :: 0 <= i < |rows| && t.maxDate == RowDate(env, rows[i]))
    decreases |rows|
  {
    if rows != [] {
      var row := rows[0];
      RunStep(env, gen, s, rows, counter);
      StepDates(env, gen, s, row, counter);
      var next := Step(env, gen, s, row, counter).value;
      RunMaxDate(env, gen, next, rows[1..], counter + 1);
      var t := Run(env, gen, next, rows[1..], counter + 1).value;
      if s.maxDate.Some? {
        NotBeforeTrans(t.maxDate.value, next.maxDate.value, s.maxDate.value);
      }
      forall i | 0 <= i < |rows| && RowDate(env, rows[i]).Some?
        ensures t.maxDate.Some? && !Before(t.maxDate.value, RowDate(env, rows[i]).value)
      {
        if i == 0 {
          NotBeforeTrans(t.maxDate.value, next.maxDate.value, RowDate(env, row).value);
        } else {
          assert rows[1..][i - 1] == rows[i];
        }
      }
      if t.maxDate != s.maxDate && t.maxDate != next.maxDate {
        var i :| 0 <= i < |rows[1..]| && t.maxDate == RowDate(env, rows[1..][i]);
        assert rows[1..][i] == rows[i + 1];
      }
    }
  }

  /** The source's update of the date range with one row's date. */
  method NoteDate(minDate: Option<CalendarDate>, maxDate: Option<CalendarDate>, date: Option<CalendarDate>)
    returns (lo: Option<CalendarDate>, hi: Option<CalendarDate>)
    ensures lo == Earlier(minDate, date) && hi == Later(maxDate, date)
  {
    lo, hi := minDate, maxDate;
    if date.Some? {
      if lo.None? || Before(date.value, lo.value) {
        lo := date;
      }
      if hi.None? || Before(hi.value, date.value) {
        hi := date;
      }
    }
  }

  /**
   * The body of the source's loop for one zipped row: note the first
   * account and the date range, generate the transaction, and keep the
   * first SECLIST entry of its key.
   */
  method ProcessRow(env: Env, gen: Generator, s: Summary, row: Row, counter: nat)
    returns (r: Result<Summary, Error>)
    ensures r == Step(env, gen, s, row, counter)
  {
    var firstAccount := s.firstAccount;
    if firstAccount.None? {
      if "Account" !in row {
        return Err(MissingColumn("Account"));
      }
      firstAccount := Some(Trim(row["Account"]));
    }
    if "Date" !in row {
      return Err(MissingColumn("Date"));
    }
    var minDate, maxDate := NoteDate(s.minDate, s.maxDate, ParseDate(env, row["Date"]));
    var g := gen(row, counter);
    if g.Err? {
      return Err(g.error);
    }
    var securities := s.securities;
    if g.value.security.Some? && g.value.security.value.uniqueId !in Keys(securities) {
      securities := securities + [g.value.security.value];
    }
    r := Ok(Summary(firstAccount, minDate, maxDate, securities, s.transactions + [g.value.entry]));
  }

  /**
   * The source's loop over the data rows: zip each row with the column
   * names and process it with a counter starting at 1, stopping at the
   * first error.
   */
  method AssembleRows(env: Env, gen: Generator, names: seq<string>, rows: seq<seq<string>>)
    returns (r: Result<Summary, Error>)
    ensures r == Run(env, gen, Initial, Zipped(names, rows), 1)
  {
    ghost var zipped := Zipped(names, rows);
    var s := Initial;
    var counter := 1;
    var i := 0;
    while i < |rows|
      invariant 0 <= i <= |rows| && counter == i + 1
      invariant Run(env, gen, Initial, zipped, 1) == Run(env, gen, s, zipped[i..], counter)
    {
      RunStep(env, gen, s, zipped[i..], counter);
      assert zipped[i..][0] == ZipRow(names, rows[i]) && zipped[i..][1..] == zipped[i + 1..];
      var next := ProcessRow(env, gen, s, ZipRow(names, rows[i]), counter);
      if next.Err? {
        return Err(next.error);
      }
      s := next.value;
      counter := counter + 1;
      i := i + 1;
    }
    assert zipped[i..] == [];
    r := Ok(s);
  }



  // ---------------------------------------------------------------------
  // The document

  /** The transactions of one kind, in row order. */
  function Filter(ts: seq<TransactionEntry>, bank: bool): (r: seq<Elem>)
    ensures |r| <= |ts|
  {
    if ts == [] then []
    else Filter(ts[..|ts| - 1], bank) + (if ts[|ts| - 1].isBankTran == bank then [ts[|ts| - 1].txn] else [])
  }

  /** INVTRANLIST order: the investment transactions in row order, then the bank transactions in row order. */
  function Ordered(ts: seq<TransactionEntry>): seq<Elem> {
    Filter(ts, false) + Filter(ts, true)
  }

  function Txns(ts: seq<TransactionEntry>): seq<Elem>
    ensures |Txns(ts)| == |ts|
  {
    if ts == [] then [] else Txns(ts[..|ts| - 1]) + [ts[|ts| - 1].txn]
  }

  /** The reordering loses and duplicates nothing. */
  lemma {:induction false} OrderedIsPermutation(ts: seq<TransactionEntry>)
    ensures multiset(Ordered(ts)) == multiset(Txns(ts))
  {
    if ts != [] {
      var init := ts[..|ts| - 1];
      OrderedIsPermutation(init);
      assert multiset(Filter(init, false) + Filter(init, true)) == multiset(Txns(init));
    }
  }

  /** Splitting by kind commutes with concatenation: the split is a stable partition. */
  lemma {:induction false} FilterAppend(a: seq<TransactionEntry>, b: seq<TransactionEntry>, bank: bool)
    ensures Filter(a + b, bank) == Filter(a, bank) + Filter(b, bank)
    decreases |b|
  {
    if b != [] {
      var init := b[..|b| - 1];
      assert (a + b)[..|a + b| - 1] == a + init;
      FilterAppend(a, init, bank);
    } else {
      assert a + b == a;
    }
  }

  /** With no bank transactions the order is the row order. */
  lemma {:induction false} OrderedWithoutBank(ts: seq<TransactionEntry>)
    requires forall i :: 0 <= i < |ts| ==> !ts[i].isBankTran
    ensures Filter(ts, true) == [] && Filter(ts, false) == Txns(ts)
    ensures Ordered(ts) == Txns(ts)
  {
    if ts != [] {
      OrderedWithoutBank(ts[..|ts| - 1]);
    }
  }

  /** Bank and investment transactions are kept apart: a list of one kind gains nothing from a row of the other. */
  lemma FilterSkips(ts: seq<TransactionEntry>, e: TransactionEntry, bank: bool)
    requires e.isBankTran != bank
    ensures Filter(ts + [e], bank) == Filter(ts, bank)
  {
    assert (ts + [e])[..|ts|] == ts;
  }

  /** The clock readings the source takes with datetime.now(). */
  datatype Clock = Clock(startNow: CalendarDate, endNow: CalendarDate, asOf: CalendarDate, serverTime: string)

  /** The lines before the OFX body. */
  const HeaderLines: seq<string> := [
    "OFXHEADER:100", "DATA:OFXSGML", "VERSION:102", "SECURITY:NONE", "ENCODING:USASCII",
    "CHARSET:1252", "COMPRESSION:NONE", "OLDFILEUID:NONE", "NEWFILEUID:NONE", ""]

  /** The variable parts of the statement. */
  datatype Statement = Statement(
    serverTime: string, asOf: string, accountId: string, dtStart: string, dtEnd: string,
    transactions: seq<Elem>, securities: seq<Elem>)

  function Status(): Elem {
    Node("STATUS", [Leaf("CODE", "0"), Leaf("SEVERITY", "INFO")])
  }

  /** The OFX body: sign-on, the investment statement, and a SECLIST only when there are securities. */
  function Ofx(st: Statement): (r: Elem) {
    Node("OFX", [
      Node("SIGNONMSGSRSV1", [Node("SONRS", [
        Status(), Leaf("DTSERVER", st.serverTime), Leaf("LANGUAGE", "ENG"),
        Node("FI", [Leaf("ORG", "4705")]), Leaf("INTU.BID", "4705"), Leaf("INTU.USERID", "U424465")])]),
      Node("INVSTMTMSGSRSV1", [Node("INVSTMTTRNRS", [
        Leaf("TRNUID", "0"), Status(),
        Node("INVSTMTRS", [
          Leaf("DTASOF", st.asOf), Leaf("CURDEF", "USD"),
          Node("INVACCTFROM", [Leaf("BROKERID", "WellsFargo"), Leaf("ACCTID", st.accountId)]),
          Node("INVTRANLIST", [Leaf("DTSTART", st.dtStart), Leaf("DTEND", st.dtEnd)] + st.transactions),
          Node("INVBAL", [Leaf("AVAILCASH", "0.00"), Leaf("MARGINBALANCE", "0.00"), Leaf("SHORTBALANCE", "0.00")])])])])]
      + (if st.securities == [] then [] else [Node("SECLISTMSGSRSV1", [Node("SECLIST", st.securities)])]))
  }

  /** A SECLIST section appears exactly when some row referred to a security. */
  lemma SecListPresent(st: Statement)
    ensures |Ofx(st).children| == (if st.securities == [] then 2 else 3)
    ensures st.securities != [] ==> Ofx(st).children[2] == Node("SECLISTMSGSRSV1", [Node("SECLIST", st.securities)])
  {
  }

  /** The converted file: the header lines, then the OFX body. */
  datatype Document = Document(header: seq<string>, ofx: Elem)

  function Entries(securities: seq<SecurityInfo>): (r: seq<Elem>)
    ensures |r| == |securities|
    ensures forall i :: 0 <= i < |r| ==> r[i] == securities[i].entry
  {
    if securities == [] then [] else Entries(securities[..|securities| - 1]) + [securities[|securities| - 1].entry]
  }

  /** OFX date-time of a statement bound: the date, or the clock reading when no row had one. */
  function Bound(d: Option<CalendarDate>, now: CalendarDate): string {
    Stamp(if d.Some? then d.value else now) + TimeSuffix
  }

  /**
   * After the loop: a file without data rows has no account; the account
   * named on the first row must be in the mapping; the statement runs from
   * the earliest to the latest row date.
   */
  function Finish(accounts: map<string, string>, clock: Clock, s: Summary): (r: Result<Document, Error>)
    ensures r.Err? <==> s.firstAccount.None? || Trim(s.firstAccount.value) !in accounts
    ensures s.firstAccount.None? ==> r == Err(NoAccount)
    ensures r.Err? && s.firstAccount.Some? ==> r.error == AccountNotMapped(Trim(s.firstAccount.value))
  {
    if s.firstAccount.None? then Err(NoAccount)
    else
      var name := Trim(s.firstAccount.value);
      if name !in accounts then Err(AccountNotMapped(name))
      else
        Ok(Document(HeaderLines, Ofx(Statement(
          clock.serverTime, Stamp(clock.asOf), accounts[name],
          Bound(s.minDate, clock.startNow), Bound(s.maxDate, clock.endNow),
          Ordered(s.transactions), Entries(s.securities)))))
  }

  /**
   * A finished statement names the mapped account, and its transaction list
   * holds every collected transaction exactly once after the two bounds.
   */
  lemma FinishStatement(accounts: map<string, string>, clock: Clock, s: Summary)
    requires Finish(accounts, clock, s).Ok?
    ensures var rs := Finish(accounts, clock, s).value.ofx.children[1].children[0].children[2];
      && rs.Node? && |rs.children| == 5
      && rs.children[2] == Node("INVACCTFROM", [Leaf("BROKERID", "WellsFargo"),
                                                Leaf("ACCTID", accounts[Trim(s.firstAccount.value)])])
      && rs.children[3].Node? && rs.children[3].tag == "INVTRANLIST" && |rs.children[3].children| >= 2
      && multiset(rs.children[3].children[2..]) == multiset(Txns(s.transactions))
  {
    var list := Finish(accounts, clock, s).value.ofx.children[1].children[0].children[2].children[3];
    assert list.children[2..] == Ordered(s.transactions);
    OrderedIsPermutation(s.transactions);
  }

  /** The whole conversion of a CSV file's rows. */
  function Conversion(env: Env, accounts: map<string, string>, clock: Clock, lines: seq<seq<string>>)
    : Result<Document, Error>
  {
    var table :- SplitTable(lines);
    var s :- Run(env, Gen(env), Initial, Zipped(NormalizedNames(table.header), table.rows), 1);
    Finish(accounts, clock, s)
  }

  /** main, from the CSV rows to the document, without the file handling. */
  method Convert(env: Env, accounts: map<string, string>, clock: Clock, lines: seq<seq<string>>)
    returns (r: Result<Document, Error>)
    ensures r == Conversion(env, accounts, clock, lines)
  {
    var table := ReadTable(lines);
    if table.Err? {
      return Err(table.error);
    }
    var names := NormalizedNames(table.value.header);
    var s := AssembleRows(env, Gen(env), names, table.value.rows);
    if s.Err? {
      return Err(s.error);
    }
    r := Finish(accounts, clock, s.value);
  }

  /**
   * A successful conversion has one transaction per data row, SECLIST
   * entries with distinct keys, and its statement names the account mapped
   * from the first row's account.
   */
  lemma ConversionShape(env: Env, accounts: map<string, string>, clock: Clock, lines: seq<seq<string>>)
    requires Conversion(env, accounts, clock, lines).Ok?
    ensures var table := SplitTable(lines).value;
      var s := Run(env, Gen(env), Initial, Zipped(NormalizedNames(table.header), table.rows), 1).value;
      && table.rows != []
      && |s.transactions| == |table.rows|
      && DistinctKeys(s.securities)
      && s.firstAccount.Some? && Trim(s.firstAccount.value) in accounts
  {
    var table := SplitTable(lines).value;
    var rows := Zipped(NormalizedNames(table.header), table.rows);
    RunTransactions(env, Gen(env), Initial, rows, 1);
    RunSecurities(env, Gen(env), Initial, rows, 1);
  }
}
