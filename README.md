# qfx.py in Dafny

qfx.py converts a brokerage CSV export into a QFX (OFX 1.02, SGML) investment
statement that Quicken can import. It works in four stages:

- It skips lines until the header row (`Date`, `Account`, …).
- It reads the data rows up to the first blank one.
- It turns each row into a transaction fragment (buy, sell, transfer, income,
  interest, fee), which may also carry a SECLIST security entry.
- It writes the statement: the account mapped from the first row's account
  name, the earliest and latest row dates, the non-bank transactions first,
  and a SECLIST when any security was seen.

The model follows the script module by module:

| module | file | what it holds |
|---|---|---|
| `Text` | `text.dfy` | `str.strip`, `lower`, `startswith`/`endswith`, `replace`, digit strings |
| `Decimal` | `decimal.dfy` | `float()` on decimal text as an exact number, and `f"{x:.Nf}"` |
| `Headers` | `headers.dfy` | `normalize_header`, `row_is_empty` |
| `Amounts` | `amounts.dfy` | `normalize_currency`, `normalize_quantity`, `compute_price` |
| `XmlText` | `xmltext.dfy` | `xml_escape` and an unescape that inverts it |
| `Records` | `records.dfy` | rows, errors, dates, the configuration and library services as values, output fragments as `Elem` trees |
| `Securities` | `securities.dfy` | `generate_buysell_secid`, `generate_buysell_security_info` |
| `Generators` | `generators.dfy` | the five generators, `is_funding_activity`, `generate_transaction` |
| `Assembler` | `assembler.dfy` | `main`: the header search, the row loop, ordering and the document |

Each exception the script raises is an `Err` of the `Error` datatype:

- a missing column (`KeyError`);
- a non-numeric value (`ValueError` from `float`);
- an unresolved security;
- an incomplete buy or sell;
- an unknown activity;
- a header row too short (`IndexError`);
- no header row;
- no account;
- an unmapped account.

Errors surface in the order the script accesses the fields.

Three behaviours that look unintended are kept as written:

- Interest amounts are always negated.
- Security transfers are always IN, whatever the sign of the quantity.
- When a security is resolved through a description rule, its SECLIST key is the rule's symbol while its SECID uses the rule's uniqueid.

A CSV row is a `map<string, string>` built by zipping the normalised header
names with the row's values; as with `dict(zip(...))`, a later duplicate name
wins. The row loop (`AssembleRows`, with `ProcessRow` for one row) and the
security lookups are methods with loops. Each is proved equal to a recursive
specification function (`Run`, `Step`, `BuySellSecId`). The properties of the
converter are proved about those functions.

## Model

| member | source | states |
|---|---|---|
| Text.Trim | qfx.py:88 | the result is no longer than the input and neither starts nor ends with whitespace |
| Text.TrimSlice | qfx.py:88 | the result is a contiguous slice of the input, and everything dropped before and after it is whitespace |
| Text.TrimEmptyIffAllSpace | qfx.py:177-179 | stripping gives "" exactly when every character is whitespace |
| Text.TrimIdempotent | qfx.py:87-91 | stripping stripped text changes nothing |
| Headers.StripTrailingNumber | qfx.py:90 | `re.sub(r'\s*\d+$', '', h)` keeps a prefix of h, drops only whitespace and digits, leaves a text without a trailing digit unchanged, and leaves no whitespace at the end when digits were removed |
| Headers.NormalizeHeader | qfx.py:87-91 | the result is a prefix of the stripped header; it is the stripped header itself for any column that is not a Price/Amount column, and for a Price/Amount column that does not end in a digit |
| Headers.NormalizeHeaderNumbered | qfx.py:87-91 | a Price or Amount column name followed by a column number, with or without a space, normalises back to the bare name |
| Headers.RowIsEmpty | qfx.py:177-179 | a CSV row is empty exactly when every character of every field is whitespace |
| Amounts.NormalizeCurrency | qfx.py:108-111 | the result is None exactly when the field is blank after stripping (the other cases are the lemmas below) |
| Amounts.CurrencyFallback | qfx.py:116-124 | when the text left after removing the sign markers, `$` and `,` does not parse, the result is "0.00" whatever the inversion flag |
| Amounts.CurrencySigns | qfx.py:108-127 | plain, `-x`, `(x)` and `(-x)` give x, -x, -x, -x to two places, each negated once more by inverseAmount |
| Amounts.CurrencySignsGrouped | qfx.py:108-127 | `$p,q`, `-$p,q`, `($p,q)` and `(-$p,q)` normalise exactly as the digits `pq` with the same sign marker: `$` and `,` are dropped before the number is read |
| Amounts.CurrencyForm | qfx.py:108-127 | every non-blank field normalises to a signed fixed-point text with two fraction digits |
| Amounts.CurrencyIdempotent | qfx.py:108-127 | normalising an already normalised amount again (without inversion) returns it unchanged |
| Amounts.ZeroRendering | qfx.py:122-127 | the "0.00" returned for an unparsable amount is exactly how zero renders to two places |
| Amounts.NormalizeQuantity | qfx.py:129-130 | the result holds no ',' and is never longer than the input; without commas it is the stripped text |
| Amounts.QuantityGrouped | qfx.py:129-130 | a grouped quantity `p,q` of digits becomes `pq`, order kept, and float() reads it as the number those digits spell |
| Text.RemoveCharAppend | qfx.py:130 | `str.replace(c, "")` works piece by piece: removing c from a concatenation concatenates the pieces with c removed |
| Amounts.ComputePriceFallback | qfx.py:132-144 | `ComputePrice` (compute_price): an unparsable quantity or amount, or a zero quantity, gives "0.00" |
| Amounts.ComputePriceValue | qfx.py:132-144 | otherwise the price is \|amount\|/\|quantity\| to within half of 10^-9, rendered with nine fraction digits |
| Amounts.ComputePriceSign | qfx.py:132-144 | the price is negative only for a negative-zero amount over a non-zero quantity (`a < 0` does not flip -0.0) |
| Decimal.FormatSignedSign | qfx.py:127 | a rendered number starts with '-' exactly when its sign is set |
| Decimal.ParseFormatFixed | qfx.py:127 | float() of a rendered fixed-point text reads back the same units and scale |
| Decimal.RoundDivNearest | qfx.py:127 | formatting rounds to the nearest unit, ties to even |
| Decimal.FormatNumReadBack | qfx.py:121-127 | `PyFloat` (float()) reads text produced by `FormatNum` (f"{x:.Nf}") back as the rounded value with the same sign bit, and formatting that again gives the same text |
| Decimal.AbsLt | qfx.py:134-139 | `if q < 0: q = -q` makes the magnitude non-negative except that -0.0 stays -0.0 |
| XmlText.XmlEscapeIsPerChar | qfx.py:181-183 | `XmlEscape` (xml_escape), five chained replacements with '&' first, equals replacing each character by its own entity |
| XmlText.XmlRoundTrip | qfx.py:181-183 | unescaping the escaped text gives the original text back |
| XmlText.XmlEscapeSafe | qfx.py:181-183 | escaped text holds no '<', '>', '"' or "'", and every '&' starts one of the five entities |
| Records.Stamp | qfx.py:102-106 | `%Y%m%d` is eight digits: the first four spell the year, the next two the month, the last two the day |
| Securities.BuySellSecId | qfx.py:204-247 | resolving the SECID fails only with a missing column or an unresolved security |
| Securities.FirstMatch | qfx.py:236-245 | the index returned is the first rule whose regex matches the description; None means no rule matches |
| Securities.SecIdResolution | qfx.py:204-247 | a non-blank CUSIP is the SECID with type CUSIP; otherwise the first matching rule's uniqueid with type OTHER; the lookup fails exactly when the CUSIP is blank and no rule matches |
| Securities.SecurityKey | qfx.py:249-284 | the security entry resolves exactly when the SECID does; its key is the CUSIP, or the first matching rule's symbol while the SECID uses that rule's uniqueid |
| Securities.BuySellSecurityInfo | qfx.py:249-284 | it fails only on a missing column or an unresolved security; with a CUSIP it succeeds exactly when Symbol is present, keyed by the CUSIP |
| Securities.ResolveSecId | qfx.py:204-247 | the rule-scanning loop computes exactly the SECID resolution above |
| Securities.ResolveSecurityInfo | qfx.py:249-284 | the rule-scanning loop computes exactly the security entry above |
| Generators.DateStr | qfx.py:561-562 | the date string is always eight digits, and is the `%Y%m%d` stamp of the date when it parses |
| Generators.FitidDistinct | qfx.py:563 | two FITIDs are equal exactly when their date strings and counters are, for every date and counter; below 10000 rows a FITID is 15 characters |
| Generators.SettleDate | qfx.py:326-330 | the settle date is eight characters: the `%Y%m%d` stamp of the trade date plus two days, or the trade date text when there is no date or the addition fails |
| Generators.FundingConditions | qfx.py:185-196 | a row is an initial funding exactly when it is a buy with description ending in "initial", blank CUSIP and Symbol, and amount equal to minus the quantity |
| Generators.IsFunding | qfx.py:185-196 | a non-buy row is never a funding; the check never raises "unknown activity" |
| Generators.TradeFigures | qfx.py:298-319 | a trade is incomplete exactly when the quantity is blank or both price and amount are; a given amount is the total and the unit price is then compute_price(quantity, amount); with no amount the given price is kept |
| Generators.DerivedTotalValue | qfx.py:311-314 | with a price and no amount the total is f"{-q * p:.2f}": its digits are within half a cent of \|q·p\|, with a '-' exactly when q and p have the same sign |
| Generators.DerivedTotalFallback | qfx.py:311-316 | with a price and no amount, a quantity or price that float() rejects gives the total "0.00" |
| Generators.DerivedTotalSign | qfx.py:311-317 | a total derived from quantity and price is negative exactly when both have the same sign (total is -quantity*price) |
| Generators.BuySellTransaction | qfx.py:286-348 | errors are a missing column, an unresolved security or an incomplete trade; a result carries the row's SECID and its security entry |
| Generators.BuySellIncomplete | qfx.py:294-319 | the trade is rejected as incomplete exactly when the quantity is blank, or price and amount are both blank with no default amount |
| Generators.FeeTransaction | qfx.py:353-371 | a fee line is produced exactly when Amount, Activity and Description are present, and carries no security |
| Generators.InterestTransaction | qfx.py:442-468 | an interest line is produced exactly when Amount, Activity and Description are present, and carries no security |
| Generators.InterestNegated | qfx.py:449-455 | the interest amount is always the negated normalised amount, because the inversion flag is the amount's own non-empty text |
| Generators.IncomeTransaction | qfx.py:399-440 | income fails only on a missing column, an unresolved security or a blank CUSIP |
| Generators.IncomeSecurity | qfx.py:420-440 | income is rejected for a missing CUSIP exactly when the CUSIP is blank; otherwise it carries the CUSIP security entry and SECID |
| Generators.CashDirection | qfx.py:499-502 | a cash transfer's action is OUT exactly when the amount is negative, IN otherwise; a blank amount raises |
| Generators.CashTransferDirection | qfx.py:499-502 | a rendered negative amount transfers OUT, a non-negative one IN |
| Generators.TransferDateAgrees | qfx.py:480-481 | the transfer re-parses the row date and agrees with the date string it was given |
| Generators.AssetTransfer | qfx.py:470-531 | a transfer fails only on a missing column, an unresolved security or a blank cash amount |
| Generators.TransferShape | qfx.py:490-531 | a blank-CUSIP transfer moves the amount under the CASH security; a security transfer moves the quantity with action IN whatever its sign |
| Generators.Classify | qfx.py:569-589 | the elif chain: an activity outside the fourteen listed ones is unknown; interest, advisory fee and journal pick the bank generators; income is DIV, CGLONG or CGSHORT |
| Generators.Dispatch | qfx.py:564-589 | an unknown activity raises exactly that error; interest, advisory fee and journal are the bank transactions |
| Generators.GenerateTransaction | qfx.py:533-589 | a missing Date column is reported first, then a missing Activity column; a generated row is a funding or has one of the listed activities |
| Generators.BankFlag | qfx.py:564-589 | a generated entry is a bank transaction exactly when its activity is interest, advisory fee or journal |
| Generators.UnknownActivityRejected | qfx.py:533-589 | a row with Date and Activity is rejected as an unknown activity exactly when its activity is none of the known ones |
| Generators.FundingIsCashTransfer | qfx.py:564-567 | an initial-funding buy becomes a TRANSFER under the CASH security, not a bank transaction |
| Assembler.OutputName | qfx.py:592-595 | the default output name ends in ".qfx" |
| Assembler.OutputNameStem | qfx.py:592-595 | "x.csv" becomes "x.qfx", and a name without ".csv" gets ".qfx" appended |
| Assembler.HeaderTest | qfx.py:635 | a line is the header exactly when its first two fields strip to Date and Account; a one-field "Date" line raises IndexError |
| Assembler.DataRowsPrefix | qfx.py:638-641 | the data rows are the non-empty lines after the header, up to the first empty one |
| Assembler.SplitTableFinds | qfx.py:633-641 | a found header is the first line that tests as a header, and the data rows follow it |
| Assembler.SplitTableMissing | qfx.py:642-643 | the header is reported missing exactly when no line tests as a header |
| Assembler.ReadTable | qfx.py:628-643 | the header-search loop computes exactly the header and the data rows |
| Assembler.ZippedColumn | qfx.py:645-647 | in each zipped data row, the normalised name of a header field is a column holding that row's field, unless a later field's header normalises to the same name |
| Assembler.ZipRowLookup | qfx.py:647 | a name is a key of the zipped row, and maps to its value when no later column has the same name |
| Assembler.ZipRowKeys | qfx.py:647 | every key of the zipped row is a header name |
| Assembler.Earlier | qfx.py:651-653 | the running minimum is one of its inputs and no later than either |
| Assembler.Later | qfx.py:654-655 | the running maximum is one of its inputs and no earlier than either |
| Assembler.NoteDate | qfx.py:650-655 | the date update yields the running minimum and maximum |
| Assembler.AddSecurityKeeps | qfx.py:657-658 | adding a security keeps the earlier ones, keeps keys distinct, and inserts a key only when it is new |
| Assembler.ProcessRow | qfx.py:647-660 | one loop iteration computes exactly one step of the specification |
| Assembler.AssembleRows | qfx.py:646-660 | the row loop computes exactly the specification run over the zipped rows |
| Assembler.RunTransactions | qfx.py:646-660 | a completed loop has one transaction per row, appended in order, and has found an account |
| Assembler.RunEntry | qfx.py:656-659 | the i-th transaction is the entry generated for the i-th row with counter 1+i |
| Assembler.RunSecurities | qfx.py:657-658 | the SECLIST only grows and its keys stay distinct |
| Assembler.RunFirstOfferKept | qfx.py:656-658 | the first row to offer a key the list lacks puts its entry in the final SECLIST, and no other entry there has that key |
| Assembler.RunSecurityOrigin | qfx.py:656-658 | every entry the loop appended to the SECLIST is the entry some row offered |
| Assembler.RunKeyCovered | qfx.py:656-658 | every security a row produced has its key in the SECLIST |
| Assembler.RunMinDate | qfx.py:650-653 | the start date is no later than any row date and is one of them |
| Assembler.RunMaxDate | qfx.py:650-655 | the end date is no earlier than any row date and is one of them |
| Assembler.OrderedIsPermutation | qfx.py:669-672 | putting the bank transactions last loses and duplicates no transaction |
| Assembler.FilterAppend | qfx.py:670-671 | the partition of two row runs is the partition of each, concatenated |
| Assembler.OrderedWithoutBank | qfx.py:669-672 | without bank transactions the CSV order is kept |
| Assembler.SecListPresent | qfx.py:733-745 | a SECLIST section appears exactly when a security was seen, holding the entries |
| Assembler.Entries | qfx.py:739-740 | the SECLIST lists every security entry in insertion order |
| Assembler.Finish | qfx.py:662-666 | finishing fails exactly when no row gave an account or the account is unmapped, with that error |
| Assembler.FinishStatement | qfx.py:675-727 | the statement names the mapped account, and its transaction list holds every transaction exactly once |
| Assembler.Convert | qfx.py:599-747 | the whole conversion method computes exactly the specification conversion |
| Assembler.ConversionShape | qfx.py:628-666 | a successful conversion has data rows, one transaction per row, distinct SECLIST keys and a mapped account |

## Left out

- The command line (argparse) and the default output path are left out. So are file reading and writing, the UTF-8 BOM and CSV quoting. The model starts from the CSV lines as lists of fields and ends at a `Document` of header lines and an `Elem` tree.
- The JSON configuration loaders (`load_account_id_mapping`, `load_missing_cusip_mapping`) are left out. Their results are parameters: an account map and an ordered rule list. The RuntimeError raised when they were never loaded cannot happen in the model.
- The model keeps `is_mutual_fund`'s answer but not how it is computed:
  - Its sqlite lookup is a given predicate (`Env.isFund`).
  - Its RuntimeError and connection setup are left out.
- These library calls are given functions in `Env`:
  - `re.search` is `Env.matches`.
  - `strptime` with the two accepted formats is `Env.parseDate`.
  - `timedelta` addition is `Env.addDays`.
- The readings of `datetime.now()` are fields of a `Clock` parameter.
- Records.Stamp: writes the year with four digits; `strftime` does not pad years below 1000 on every platform.
- Generators.SettleDate: starts from the parsed row date rather than re-parsing the eight-digit date text; the two agree whenever the year has four digits.
- Text layout is not modelled. Fragments are trees, not indented lines, so indentation, `rstrip`/`strip` of fragments and the final `"\n".join` are out of scope.
- `print` warnings are not modelled, including the price/amount mismatch.
- Digits are the ASCII digits 0-9. Python's `\d` in `re.sub` and `float()` also accept every other Unicode decimal digit (Arabic-Indic, for example). The model treats those as ordinary characters: `normalize_header` keeps such a trailing number and `float()` rejects such text.
- Binary floating point is not modelled. `float()` is exact decimal arithmetic on plain decimal text. Exponents, `inf`, `nan` and underscores are rejected rather than parsed. Rounding of the last printed digit can differ from binary doubles.
- Amounts.ComputePriceValue: bounds the nine-digit price by exact rounding of the decimal ratio, not by the binary-double quotient Python prints.
- The commented-out interest security entry (qfx.py:376-397) is dead code and is not modelled.
- The row loop is parameterised by the transaction generator; `Gen(env)` supplies `generate_transaction`. This keeps the loop lemmas independent of the generators' bodies.
- The fee generator's `inverseAmount` flag is modelled, but every call site passes False.
