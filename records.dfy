/**
 * The records qfx.py passes between its stages: CSV rows as dictionaries,
 * the errors a conversion can stop with, the configuration and library
 * services the converter consults, calendar dates, and the OFX fragments
 * the generators produce (as element trees rather than indented text).
 */
module Records {
  import opened Wrappers
  import opened Text

  /** One data row: the normalised column names mapped to the row's fields (dict(zip(...))). */
  type Row = map<string, string>

  /** Every way a conversion stops, in the source's own terms. */
  datatype Error =
    | MissingColumn(name: string)          // KeyError on row[name]
    | NotANumber(text: string)             // ValueError from float(text)
    | BlankAmount                          // float(None) or None.startswith on a blank amount
    | UnresolvedSecurity(description: string) // no CUSIP and no description rule matches
    | IncompleteTransaction                // buy/sell with neither amount nor price
    | MissingCusip(description: string)    // income row without a CUSIP
    | UnknownActivity(activity: string)    // activity outside the dispatch table
    | ShortHeaderRow                       // IndexError on a one-field row starting with 'Date'
    | HeaderNotFound                       // no 'Date','Account' header row
    | NoAccount                            // no data row at all
    | AccountNotMapped(name: string)       // account name absent from the account mapping

  /** row[name]: the field, or the KeyError the source would raise. */
  function Field(row: Row, name: string): Result<string, Error> {
    if name in row then Ok(row[name]) else Err(MissingColumn(name))
  }

  /** row[name].strip() */
  function Stripped(row: Row, name: string): Result<string, Error> {
    var v :- Field(row, name);
    Ok(Trim(v))
  }

  /** A calendar date; the time of day of every parsed date is midnight. */
  datatype Date = Date(year: int, month: int, day: int)

  type CalendarDate = d: Date | 1 <= d.year <= 9999 && 1 <= d.month <= 12 && 1 <= d.day <= 31
    witness Date(1, 1, 1)

  /** Python's ordering of datetime values with equal times: year, then month, then day. */
  predicate Before(a: CalendarDate, b: CalendarDate) {
    a.year < b.year
    || (a.year == b.year && a.month < b.month)
    || (a.year == b.year && a.month == b.month && a.day < b.day)
  }

  /** One entry of the missing-CUSIP mapping in the configuration file. */
  datatype MissingCusipRule = MissingCusipRule(
    descriptionRegex: string, uniqueId: string, symbol: string, infoTag: string)

  /**
   * The configuration and the library services the converter consults, as
   * given values: the ordered missing-CUSIP rules, re.search, the
   * mutual-fund lookup, parse_date (strptime with the two accepted formats,
   * on already stripped text) and date arithmetic (None on overflow).
   */
  datatype Env = Env(
    rules: seq<MissingCusipRule>,
    matches: (string, string) -> bool,
    isFund: string -> bool,
    parseDate: string -> Option<CalendarDate>,
    addDays: (CalendarDate, int) -> Option<CalendarDate>)

  /** parse_date: strip the text, then try the accepted formats. */
  function ParseDate(env: Env, text: string): Option<CalendarDate> {
    env.parseDate(Trim(text))
  }

  /** strftime("%Y%m%d"): four-digit year, two-digit month and day. */
  function Stamp(d: CalendarDate): (r: string)
    ensures |r| == 8 && AllDigits(r)
    ensures AllDigits(r[..4]) && DigitsValue(r[..4]) == d.year
    ensures AllDigits(r[4..6]) && DigitsValue(r[4..6]) == d.month
    ensures AllDigits(r[6..]) && DigitsValue(r[6..]) == d.day
  {
    NatToStringLength(d.year, 4);
    NatToStringLength(d.month, 2);
    NatToStringLength(d.day, 2);
    var y, m, dd := PadNat(d.year, 4), PadNat(d.month, 2), PadNat(d.day, 2);
    var r := y + m + dd;
    assert r[..4] == y && r[4..6] == m && r[6..] == dd;
    r
  }

  /** The fixed time and zone the source appends to every OFX date. */
  const TimeSuffix: string := "120000.000[-5:EST]"

  /** An OFX fragment: an element holding text, or an aggregate of elements. */
  datatype Elem = Leaf(tag: string, text: string) | Node(tag: string, children: seq<Elem>)

  /** A security identifier: UNIQUEID and UNIQUEIDTYPE. */
  datatype SecId = SecId(uniqueId: string, idType: string)

  function SecIdElem(id: SecId): Elem {
    Node("SECID", [Leaf("UNIQUEID", id.uniqueId), Leaf("UNIQUEIDTYPE", id.idType)])
  }

  /** cash_secid: the synthetic CASH security. */
  const CashSecId: SecId := SecId("CASH", "CUSIP")

  /** A SECLIST entry and the key it is stored under. */
  datatype SecurityInfo = SecurityInfo(uniqueId: string, entry: Elem)

  /** A transaction fragment and whether it is a bank (cash) transaction. */
  datatype TransactionEntry = TransactionEntry(txn: Elem, isBankTran: bool)

  /** What generate_transaction returns for one row. */
  datatype Generated = Generated(entry: TransactionEntry, security: Option<SecurityInfo>)

  /** f"{x}" on a normalised amount: the text, or "None" for a blank one. */
  function Show(x: Option<string>): string {
    if x.Some? then x.value else "None"
  }
}
