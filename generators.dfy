/**
 * The transaction generators of qfx.py: one OFX fragment per CSV row, chosen
 * by the row's activity, with the SECLIST entry the row refers to.
 */
module Generators {
  import opened Wrappers
  import opened Text
  import opened Decimal
  import opened Amounts
  import opened XmlText
  import opened Records
  import opened Securities

  // ---------------------------------------------------------------------
  // Dates and transaction ids

  /** The row's date as YYYYMMDD, or eight zeros when it does not parse. */
  function DateStr(date: Option<CalendarDate>): (r: string)
    ensures |r| == 8 && AllDigits(r)
    ensures date.Some? ==> r == Stamp(date.value)
  {
    if date.Some? then Stamp(date.value) else "00000000"
  }

  /** The FITID of the counter-th row: "TXN", the date text, the counter padded to four digits. */
  function Fitid(dateStr: string, counter: nat): string {
    "TXN" + dateStr + PadNat(counter, 4)
  }

  /**
   * The date part has a fixed width, so two FITIDs are equal exactly when
   * their dates and counters are; below 10000 rows a FITID is fifteen
   * characters long.
   */
  lemma FitidDistinct(d1: Option<CalendarDate>, c1: nat, d2: Option<CalendarDate>, c2: nat)
    ensures c1 < 10000 ==> |Fitid(DateStr(d1), c1)| == 15
    ensures Fitid(DateStr(d1), c1) == Fitid(DateStr(d2), c2) <==> DateStr(d1) == DateStr(d2) && c1 == c2
  {
    var s1, s2 := DateStr(d1), DateStr(d2);
    if c1 < 10000 {
      NatToStringLength(c1, 4);
    }
    FitidParts(s1, c1);
    FitidParts(s2, c2);
  }

  /** An eight-character date text and the padded counter can be read back out of a FITID. */
  lemma FitidParts(dateStr: string, counter: nat)
    requires |dateStr| == 8
    ensures Fitid(dateStr, counter)[3..11] == dateStr
    ensures Fitid(dateStr, counter)[11..] == PadNat(counter, 4)
    ensures DigitsValue(Fitid(dateStr, counter)[11..]) == counter
  {
  }

  /** DTSETTLE: two days after the trade date, or the trade date text when there is none. */
  function SettleDate(env: Env, date: Option<CalendarDate>): (r: string)
    ensures |r| == 8
    ensures date.Some? && env.addDays(date.value, 2).Some? ==> r == Stamp(env.addDays(date.value, 2).value)
    ensures !(date.Some? && env.addDays(date.value, 2).Some?) ==> r == DateStr(date)
  {
    if date.Some? && env.addDays(date.value, 2).Some? then Stamp(env.addDays(date.value, 2).value)
    else DateStr(date)
  }

  // ---------------------------------------------------------------------
  // Shared fragments

  /** What a generator produces: the transaction and the SECLIST entry, if any. */
  datatype Fragment = Fragment(txn: Elem, security: Option<SecurityInfo>)

  /** The MEMO of most transactions: the activity, then the escaped description. */
  function Memo(activity: string, description: string): string {
    activity + ": " + XmlEscape(description)
  }

  function InvTran(fitid: string, date: string, memo: string): Elem {
    Node("INVTRAN", [Leaf("FITID", fitid), Leaf("DTTRADE", date), Leaf("MEMO", memo)])
  }

  /** A cash statement line inside INVBANKTRAN, in US dollars at rate 1.0. */
  function BankTran(trnType: string, date: string, amount: string, fitid: string, memo: string): Elem {
    Node("INVBANKTRAN", [
      Node("STMTTRN", [
        Leaf("TRNTYPE", trnType), Leaf("DTPOSTED", date), Leaf("TRNAMT", amount),
        Leaf("FITID", fitid), Leaf("MEMO", memo),
        Node("CURRENCY", [Leaf("CURRATE", "1.0"), Leaf("CURSYM", "USD")])]),
      Leaf("SUBACCTFUND", "CASH")])
  }

  /** float(text), or the ValueError it raises. */
  function Float(text: string): Result<Num, Error> {
    var n := PyFloat(text);
    if n.Some? then Ok(n.value) else Err(NotANumber(text))
  }

  // ---------------------------------------------------------------------
  // Funding rows

  /**
   * is_funding_activity: a "buy" whose description ends in "initial", with
   * blank CUSIP and symbol, whose amount is the negated quantity. The
   * conditions are tested left to right and stop at the first false one.
   */
  function IsFunding(row: Row): (r: Result<bool, Error>)
    ensures r == Ok(true) ==> "Activity" in row && Lower(Trim(row["Activity"])) == "buy"
    ensures "Activity" in row && Lower(Trim(row["Activity"])) != "buy" ==> r == Ok(false)
    ensures r.Err? ==> !r.error.UnknownActivity?
  {
    var activity :- Stripped(row, "Activity");
    if Lower(activity) != "buy" then Ok(false)
    else
      var description :- Stripped(row, "Description");
      if !EndsWith(Lower(description), "initial") then Ok(false)
      else
        var cusip :- Stripped(row, "CUSIP");
        if cusip != [] then Ok(false)
        else
          var symbol :- Stripped(row, "Symbol");
          if symbol != [] then Ok(false)
          else AmountCancelsQuantity(row)
  }

  /** The last test of is_funding_activity: float(amount) == -float(quantity). */
  function AmountCancelsQuantity(row: Row): (r: Result<bool, Error>)
    ensures r.Err? ==> !r.error.UnknownActivity?
  {
    var amountText :- Field(row, "Amount");
    var amount := NormalizeCurrency(amountText, false);
    if amount.None? then Err(BlankAmount)
    else
      var a :- Float(amount.value);
      var quantityText :- Field(row, "Quantity");
      var q :- Float(quantityText);
      Ok(SameValue(a, Negate(q)))
  }

  /** A funding row is exactly a blank-CUSIP, blank-symbol "buy" of an "...initial" description whose amount cancels its quantity. */
  lemma FundingConditions(row: Row)
    ensures IsFunding(row) == Ok(true) <==>
      && "Activity" in row && Lower(Trim(row["Activity"])) == "buy"
      && "Description" in row && EndsWith(Lower(Trim(row["Description"])), "initial")
      && "CUSIP" in row && Trim(row["CUSIP"]) == []
      && "Symbol" in row && Trim(row["Symbol"]) == []
      && "Amount" in row && NormalizeCurrency(row["Amount"], false).Some?
      && PyFloat(NormalizeCurrency(row["Amount"], false).value).Some?
      && "Quantity" in row && PyFloat(row["Quantity"]).Some?
      && SameValue(PyFloat(NormalizeCurrency(row["Amount"], false).value).value,
                   Negate(PyFloat(row["Quantity"]).value))
  {
  }

  // ---------------------------------------------------------------------
  // Buys and sells

  /** UNITPRICE and TOTAL of a buy or sell. */
  datatype Trade = Trade(unitPrice: string, total: string)

  /**
   * The price and total of a trade: with a quantity and an amount, the price
   * is derived from them; with a quantity and a price but no amount, the
   * total is -quantity * price ("0.00" when the quantity does not parse);
   * otherwise the transaction is incomplete.
   */
  function TradeFigures(quantity: string, price: Option<string>, amount: Option<string>): (r: Result<Trade, Error>)
    ensures r.Err? <==> quantity == [] || (price.None? && amount.None?)
    ensures r.Err? ==> r.error == IncompleteTransaction
    ensures r.Ok? && amount.Some? ==> r.value.total == amount.value
    ensures r.Ok? && amount.Some? ==> r.value.unitPrice == ComputePrice(quantity, amount.value)
    ensures r.Ok? && amount.None? ==> r.value.unitPrice == price.value
  {
    if quantity != [] && amount.Some? then
      Ok(Trade(ComputePrice(quantity, amount.value), amount.value))
    else if quantity != [] && price.Some? && amount.None? then
      var q := PyFloat(quantity);
      var p := PyFloat(price.value);
      if q.Some? && p.Some? then Ok(Trade(price.value, FormatNum(Times(Negate(q.value), p.value), 2)))
      else Ok(Trade(price.value, "0.00"))
    else Err(IncompleteTransaction)
  }

  /** A total derived from the price is negative exactly when quantity and price have the same sign. */
  lemma DerivedTotalSign(quantity: string, price: string)
    requires quantity != [] && PyFloat(quantity).Some? && PyFloat(price).Some?
    ensures var t := TradeFigures(quantity, Some(price), None);
      t.Ok? && (StartsWith(t.value.total, "-") <==> PyFloat(quantity).value.neg == PyFloat(price).value.neg)
  {
    var x := Times(Negate(PyFloat(quantity).value), PyFloat(price).value);
    FormatSignedSign(x.neg, Units(x, 2), 2);
  }

  /**
   * With a price and no amount, the total is -quantity * price to the cent:
   * its digits are within half a cent of |quantity * price|, and it is
   * negative exactly when quantity and price have the same sign.
   */
  lemma DerivedTotalValue(quantity: string, price: string, q: Num, p: Num) returns (units: nat)
    requires quantity != [] && PyFloat(quantity) == Some(q) && PyFloat(price) == Some(p)
    ensures TradeFigures(quantity, Some(price), None) == Ok(Trade(price, FormatSigned(q.neg == p.neg, units, 2)))
    ensures WithinHalf(units, q.mant * p.mant * 100, Pow10(q.scale + p.scale))
  {
    units := NegatedProductCents(q, p);
  }

  /** -q * p to the cent, in terms of q and p. */
  lemma NegatedProductCents(q: Num, p: Num) returns (units: nat)
    ensures FormatNum(Times(Negate(q), p), 2) == FormatSigned(q.neg == p.neg, units, 2)
    ensures WithinHalf(units, q.mant * p.mant * 100, Pow10(q.scale + p.scale))
  {
    units := ProductCents(Negate(q), p);
  }

  /** With a price and no amount, a quantity or price that float() rejects gives the total "0.00". */
  lemma DerivedTotalFallback(quantity: string, price: string)
    requires quantity != [] && (PyFloat(quantity).None? || PyFloat(price).None?)
    ensures TradeFigures(quantity, Some(price), None) == Ok(Trade(price, "0.00"))
  {
  }

  function BuySellElem(outer: string, kind: string, fitid: string, dateStr: string, settle: string,
                       memo: string, id: SecId, units: string, trade: Trade): Elem {
    Node(outer, [
      Node("INV" + kind, [
        Node("INVTRAN", [Leaf("FITID", fitid), Leaf("DTTRADE", dateStr), Leaf("DTSETTLE", settle), Leaf("MEMO", memo)]),
        SecIdElem(id),
        Leaf("UNITS", units), Leaf("UNITPRICE", trade.unitPrice), Leaf("TOTAL", trade.total),
        Leaf("SUBACCTSEC", "CASH"), Leaf("SUBACCTFUND", "CASH")]),
      Leaf(kind + "TYPE", kind)])
  }

  /** The fields a buy or sell takes from its row, with its price and total settled. */
  datatype TradeRow = TradeRow(activity: string, description: string, quantity: string, trade: Trade)

  /** The first half of generate_buysell_transaction: read the row and settle price and total. */
  function TradeRowOf(row: Row, amountDefault: Option<string>): (r: Result<TradeRow, Error>)
    ensures r.Err? ==> r.error.MissingColumn? || r.error == IncompleteTransaction
  {
    var activity :- Stripped(row, "Activity");
    var description :- Stripped(row, "Description");
    var cusip :- Stripped(row, "CUSIP");
    var quantityText :- Field(row, "Quantity");
    var priceText :- Field(row, "Price");
    var amountText :- Field(row, "Amount");
    var quantity := NormalizeQuantity(quantityText);
    var amount := NormalizeCurrency(amountText, false);
    var trade :- TradeFigures(quantity, NormalizeCurrency(priceText, false),
                              if amount.None? then amountDefault else amount);
    Ok(TradeRow(activity, description, quantity, trade))
  }

  /**
   * generate_buysell_transaction: a BUYMF, BUYSTOCK, SELLMF or SELLSTOCK
   * aggregate settling two days after the trade, with the security it
   * refers to. amountDefault stands in for a blank amount.
   */
  function BuySellTransaction(env: Env, row: Row, sell: bool, fitid: string, date: Option<CalendarDate>,
                              amountDefault: Option<string>): (r: Result<Fragment, Error>)
    ensures r.Err? ==> r.error.MissingColumn? || r.error.UnresolvedSecurity? || r.error == IncompleteTransaction
    ensures r.Err? && r.error == IncompleteTransaction ==> TradeRowOf(row, amountDefault) == Err(IncompleteTransaction)
    ensures r.Ok? ==> TradeRowOf(row, amountDefault).Ok? && "Symbol" in row
    ensures r.Ok? ==> BuySellSecId(env, row).Ok? && r.value.security == Some(BuySellSecurityInfo(env, row).value)
    ensures r.Ok? ==> r.value.txn == TradeElem(env, sell, fitid, date, TradeRowOf(row, amountDefault).value,
                                               Trim(row["Symbol"]), BuySellSecId(env, row).value)
  {
    var t :- TradeRowOf(row, amountDefault);
    var symbol :- Stripped(row, "Symbol");
    var id :- BuySellSecId(env, row);
    var info :- BuySellSecurityInfo(env, row);
    Ok(Fragment(TradeElem(env, sell, fitid, date, t, symbol, id), Some(info)))
  }

  /**
   * The trade aggregate: BUY or SELL, MF when the symbol is a mutual fund and
   * STOCK otherwise, settling two days after the trade date.
   */
  function TradeElem(env: Env, sell: bool, fitid: string, date: Option<CalendarDate>, t: TradeRow,
                     symbol: string, id: SecId): Elem {
    var kind := if sell then "SELL" else "BUY";
    var outer := kind + (if env.isFund(symbol) then "MF" else "STOCK");
    BuySellElem(outer, kind, fitid, DateStr(date), SettleDate(env, date),
                Memo(t.activity, t.description), id, t.quantity, t.trade)
  }

  /** The columns a buy or sell reads before deciding whether it is complete. */
  predicate TradeColumns(row: Row) {
    "Activity" in row && "Description" in row && "CUSIP" in row
    && "Quantity" in row && "Price" in row && "Amount" in row
  }

  /**
   * A buy or sell is rejected as incomplete exactly when its quantity is
   * blank, or when price and amount are both blank and there is no default
   * amount; so a "reinvest dist" row with a quantity never is.
   */
  lemma BuySellIncomplete(env: Env, row: Row, sell: bool, fitid: string, date: Option<CalendarDate>,
                          amountDefault: Option<string>)
    requires TradeColumns(row)
    ensures BuySellTransaction(env, row, sell, fitid, date, amountDefault) == Err(IncompleteTransaction)
      <==> NormalizeQuantity(row["Quantity"]) == []
           || (Trim(row["Price"]) == [] && Trim(row["Amount"]) == [] && amountDefault.None?)
  {
    var t := TradeRowOf(row, amountDefault);
    assert t == Err(IncompleteTransaction) <==>
      (NormalizeQuantity(row["Quantity"]) == []
       || (Trim(row["Price"]) == [] && Trim(row["Amount"]) == [] && amountDefault.None?));
  }

  // ---------------------------------------------------------------------
  // Fees and interest

  /** generate_fee_transaction: an INVBANKTRAN of type FEE; no security. */
  function FeeTransaction(row: Row, fitid: string, dateStr: string, inverseAmount: bool): (r: Result<Fragment, Error>)
    ensures r.Ok? <==> "Amount" in row && "Activity" in row && "Description" in row
    ensures r.Ok? ==> r.value.security.None?
  {
    var amountText :- Field(row, "Amount");
    var activity :- Stripped(row, "Activity");
    var description :- Stripped(row, "Description");
    Ok(Fragment(BankTran("FEE", dateStr, Show(NormalizeCurrency(amountText, inverseAmount)), fitid,
                         Memo(activity, description)),
                None))
  }

  /** Python truthiness of an optional string: present and not empty. */
  predicate Truthy(x: Option<string>) {
    x.Some? && x.value != []
  }

  /** The TRNAMT of an interest line: the amount normalised with its own normalisation as the inversion flag. */
  function InterestAmount(amountText: string): string {
    Show(NormalizeCurrency(amountText, Truthy(NormalizeCurrency(amountText, false))))
  }

  /** generate_intrest_transaction: an INVBANKTRAN of type INT; no security. */
  function InterestTransaction(row: Row, fitid: string, dateStr: string): (r: Result<Fragment, Error>)
    ensures r.Ok? <==> "Amount" in row && "Activity" in row && "Description" in row
    ensures r.Ok? ==> r.value.security.None?
  {
    var amountText :- Field(row, "Amount");
    var activity :- Stripped(row, "Activity");
    var description :- Stripped(row, "Description");
    Ok(Fragment(BankTran("INT", dateStr, InterestAmount(amountText), fitid, Memo(activity, description)), None))
  }

  /** A normalised amount is never empty, so every interest amount is written negated. */
  lemma InterestNegated(amountText: string)
    ensures InterestAmount(amountText) == Show(NormalizeCurrency(amountText, true))
  {
    if NormalizeCurrency(amountText, false).Some? {
      var neg, units := CurrencyForm(amountText, false);
      assert |FormatFixed(units, 2)| >= 4;
    }
  }

  // ---------------------------------------------------------------------
  // Income

  /**
   * generate_income_transaction: an INCOME aggregate of the given type, on
   * the row's CUSIP; a row without a CUSIP is rejected.
   */
  function IncomeTransaction(env: Env, row: Row, fitid: string, dateStr: string, incomeType: string)
    : (r: Result<Fragment, Error>)
    ensures r.Err? ==> r.error.MissingColumn? || r.error.UnresolvedSecurity? || r.error.MissingCusip?
  {
    var activity :- Stripped(row, "Activity");
    var description :- Stripped(row, "Description");
    var amountText :- Field(row, "Amount");
    var amount := NormalizeCurrency(amountText, false);
    var cusip :- Stripped(row, "CUSIP");
    if cusip == [] then Err(MissingCusip(description))
    else
      var info :- BuySellSecurityInfo(env, row);
      Ok(Fragment(
        Node("INCOME", [
          InvTran(fitid, dateStr + TimeSuffix, XmlEscape(description)),
          SecIdElem(SecId(cusip, "CUSIP")),
          Leaf("INCOMETYPE", incomeType), Leaf("TOTAL", Show(amount)),
          Leaf("SUBACCTSEC", "CASH"), Leaf("SUBACCTFUND", "CASH")]),
        Some(info)))
  }

  /**
   * Income needs a CUSIP: without one the row is rejected with its
   * description; with one, the income refers to that CUSIP, the same SECID
   * a buy of the row would, and its SECLIST entry is keyed by it.
   */
  lemma IncomeSecurity(env: Env, row: Row, fitid: string, dateStr: string, incomeType: string)
    requires "Activity" in row && "Description" in row && "Amount" in row && "CUSIP" in row
    ensures var r := IncomeTransaction(env, row, fitid, dateStr, incomeType);
      r == Err(MissingCusip(Trim(row["Description"]))) <==> Trim(row["CUSIP"]) == []
    ensures var r := IncomeTransaction(env, row, fitid, dateStr, incomeType);
      Trim(row["CUSIP"]) != [] ==>
        && (r.Ok? <==> "Symbol" in row)
        && (r.Ok? ==> r.value.security.Some? && r.value.security.value.uniqueId == Trim(row["CUSIP"])
                      && r.value.txn.children[1] == SecIdElem(BuySellSecId(env, row).value))
  {
  }

  // ---------------------------------------------------------------------
  // Transfers

  function TransferElem(fitid: string, date: string, memo: string, id: SecId, units: string, action: string): Elem {
    Node("TRANSFER", [
      InvTran(fitid, date, memo), SecIdElem(id), Leaf("SUBACCTSEC", "CASH"),
      Leaf("UNITS", units), Leaf("TFERACTION", action), Leaf("POSTYPE", "LONG")])
  }

  /** The SECLIST entry of the synthetic cash security. */
  const CashSecurity: SecurityInfo :=
    SecurityInfo("CASH", Node("OTHERINFO", [Node("SECINFO", [SecIdElem(CashSecId), Leaf("SECNAME", "Cash Balance")])]))

  /** TFERACTION of a cash transfer: OUT for a negative amount; a blank amount raises. */
  function CashDirection(amount: Option<string>): (r: Result<string, Error>)
    ensures r.Ok? <==> amount.Some?
    ensures r.Err? ==> r.error == BlankAmount
    ensures r.Ok? ==> (r.value == "OUT" <==> StartsWith(amount.value, "-"))
    ensures r.Ok? ==> r.value == "OUT" || r.value == "IN"
  {
    if amount.None? then Err(BlankAmount)
    else if StartsWith(amount.value, "-") then Ok("OUT")
    else Ok("IN")
  }

  /** A normalised amount moves cash out exactly when its sign bit is set. */
  lemma CashTransferDirection(neg: bool, units: nat)
    ensures CashDirection(Some(FormatSigned(neg, units, 2))) == Ok(if neg then "OUT" else "IN")
  {
    FormatSignedSign(neg, units, 2);
  }

  /** DTTRADE of a transfer: the row's date re-parsed, or the date text passed in. */
  function TransferDate(env: Env, dateText: string, dateStr: string): string {
    var date := ParseDate(env, dateText);
    (if date.Some? then Stamp(date.value) else dateStr) + TimeSuffix
  }

  /** When the date text passed in is the row's own, both ways of writing the transfer date agree. */
  lemma TransferDateAgrees(env: Env, dateText: string)
    ensures TransferDate(env, dateText, DateStr(ParseDate(env, dateText))) == DateStr(ParseDate(env, dateText)) + TimeSuffix
  {
  }

  /**
   * generate_asset_transfer: a TRANSFER of cash (no CUSIP) or of the row's
   * security. A cash transfer moves the amount, OUT when it is negative, and
   * refers to the synthetic CASH security; a security transfer moves the
   * quantity and is always written as IN.
   */
  function AssetTransfer(env: Env, row: Row, fitid: string, dateStr: string): (r: Result<Fragment, Error>)
    ensures r.Err? ==> r.error.MissingColumn? || r.error.UnresolvedSecurity? || r.error == BlankAmount
  {
    var dateText :- Field(row, "Date");
    var fullDate := TransferDate(env, dateText, dateStr);
    var activity :- Stripped(row, "Activity");
    var description :- Stripped(row, "Description");
    var cusip :- Stripped(row, "CUSIP");
    var quantityText :- Field(row, "Quantity");
    var amountText :- Field(row, "Amount");
    var quantity := NormalizeQuantity(quantityText);
    var amount := NormalizeCurrency(amountText, false);
    var memo := Memo(activity, description);
    if cusip == [] then
      var direction :- CashDirection(amount);
      Ok(Fragment(TransferElem(fitid, fullDate, memo, CashSecId, Show(amount), direction), Some(CashSecurity)))
    else
      var info :- BuySellSecurityInfo(env, row);
      Ok(Fragment(TransferElem(fitid, fullDate, memo, SecId(cusip, "CUSIP"), quantity, "IN"), Some(info)))
  }

  /** The columns a transfer reads before it branches on the CUSIP. */
  predicate TransferColumns(row: Row) {
    "Date" in row && "Activity" in row && "Description" in row
    && "CUSIP" in row && "Quantity" in row && "Amount" in row
  }

  /**
   * A cash transfer fails only on a blank amount, and then moves the amount
   * under the CASH security; a security transfer moves the quantity with
   * action IN, whatever the sign of the quantity.
   */
  lemma TransferShape(env: Env, row: Row, fitid: string, dateStr: string)
    requires TransferColumns(row)
    ensures var r := AssetTransfer(env, row, fitid, dateStr);
      var memo := Memo(Trim(row["Activity"]), Trim(row["Description"]));
      var date := TransferDate(env, row["Date"], dateStr);
      var amount := NormalizeCurrency(row["Amount"], false);
      Trim(row["CUSIP"]) == [] ==>
        && (r.Ok? <==> Trim(row["Amount"]) != [])
        && (r.Ok? ==> r.value.security == Some(CashSecurity)
                      && r.value.txn == TransferElem(fitid, date, memo, CashSecId, amount.value,
                                                     CashDirection(amount).value))
    ensures var r := AssetTransfer(env, row, fitid, dateStr);
      var memo := Memo(Trim(row["Activity"]), Trim(row["Description"]));
      var date := TransferDate(env, row["Date"], dateStr);
      var cusip := Trim(row["CUSIP"]);
      cusip != [] && r.Ok? ==>
        r.value.txn == TransferElem(fitid, date, memo, SecId(cusip, "CUSIP"), NormalizeQuantity(row["Quantity"]), "IN")
  {
  }

  // ---------------------------------------------------------------------
  // Dispatch

  /** The generator an activity selects, by its stripped lower-case text. */
  datatype Kind = Buy | Sell | Transfer | Income(incomeType: string) | Interest | Fee | ReinvestDist | Unknown

  /** Every activity the dispatch table names, lower-cased. */
  const KnownActivities: set<string> := {
    "buy", "reinvest dividend", "rein stc gain", "rein cap gain", "sell", "asset trf", "ach activity",
    "dividend", "interest", "lt cap gain", "shrt trm gain", "advisory fee", "journal", "reinvest dist"}

  /**
   * The elif chain of generate_transaction: an activity outside the table is
   * Unknown, the bank generators serve interest, advisory fees and journal
   * entries, and income comes in three types.
   */
  function Classify(act: string): (r: Kind)
    ensures r == Unknown <==> act !in KnownActivities
    ensures r == Interest || r == Fee <==> act in {"interest", "advisory fee", "journal"}
    ensures r.Income? ==> r.incomeType in {"DIV", "CGLONG", "CGSHORT"}
  {
    if act == "buy" || act == "reinvest dividend" || act == "rein stc gain" || act == "rein cap gain" then Buy
    else if act == "sell" then Sell
    else if act == "asset trf" || act == "ach activity" then Transfer
    else if act == "dividend" then Income("DIV")
    else if act == "interest" then Interest
    else if act == "lt cap gain" then Income("CGLONG")
    else if act == "shrt trm gain" then Income("CGSHORT")
    else if act == "advisory fee" || act == "journal" then Fee
    else if act == "reinvest dist" then ReinvestDist
    else Unknown
  }

  /** _make_txn_entry: the fragment tagged with whether it is a bank transaction. */
  function Entry(f: Result<Fragment, Error>, bank: bool): Result<Generated, Error> {
    var frag :- f;
    Ok(Generated(TransactionEntry(frag.txn, bank), frag.security))
  }

  /** The generator a kind selects, and whether its fragment is a bank transaction. */
  function Dispatch(env: Env, row: Row, kind: Kind, activity: string, fitid: string, date: Option<CalendarDate>)
    : (r: Result<Generated, Error>)
    ensures r.Ok? ==> (r.value.entry.isBankTran <==> kind == Interest || kind == Fee)
    ensures kind == Unknown ==> r == Err(UnknownActivity(activity))
    ensures kind != Unknown && r.Err? ==> !r.error.UnknownActivity?
  {
    var dateStr := DateStr(date);
    match kind
    case Buy => Entry(BuySellTransaction(env, row, false, fitid, date, None), false)
    case Sell => Entry(BuySellTransaction(env, row, true, fitid, date, None), false)
    case Transfer => Entry(AssetTransfer(env, row, fitid, dateStr), false)
    case Income(t) => Entry(IncomeTransaction(env, row, fitid, dateStr, t), false)
    case Interest => Entry(InterestTransaction(row, fitid, dateStr), true)
    case Fee => Entry(FeeTransaction(row, fitid, dateStr, false), true)
    case ReinvestDist => Entry(BuySellTransaction(env, row, false, fitid, date, Some("0.0")), false)
    case Unknown => Err(UnknownActivity(activity))
  }

  /**
   * generate_transaction: the fragment of the counter-th row. A funding row
   * becomes a transfer before its "buy" activity is looked at; interest,
   * advisory fees and journal entries are bank transactions.
   */
  function GenerateTransaction(env: Env, row: Row, counter: nat): (r: Result<Generated, Error>)
    ensures "Date" !in row ==> r == Err(MissingColumn("Date"))
    ensures "Date" in row && "Activity" !in row ==> r == Err(MissingColumn("Activity"))
    ensures r.Ok? ==> IsFunding(row) == Ok(true) || Lower(Trim(row["Activity"])) in KnownActivities
  {
    var dateText :- Field(row, "Date");
    var date := ParseDate(env, dateText);
    var fitid := Fitid(DateStr(date), counter);
    var activity :- Field(row, "Activity");
    var funding :- IsFunding(row);
    if funding then Entry(AssetTransfer(env, row, fitid, DateStr(date)), false)
    else Dispatch(env, row, Classify(Lower(Trim(activity))), activity, fitid, date)
  }

  /** Exactly interest, advisory fee and journal rows are bank transactions. */
  lemma BankFlag(env: Env, row: Row, counter: nat)
    ensures var r := GenerateTransaction(env, row, counter);
      r.Ok? ==> (r.value.entry.isBankTran <==> Classify(Lower(Trim(row["Activity"]))) in {Interest, Fee})
  {
  }

  /** An activity outside the table is rejected, with the activity as written; nothing else gives that error. */
  lemma UnknownActivityRejected(env: Env, row: Row, counter: nat)
    requires "Date" in row && "Activity" in row
    ensures var r := GenerateTransaction(env, row, counter);
      r == Err(UnknownActivity(row["Activity"])) <==> Classify(Lower(Trim(row["Activity"]))) == Unknown
    ensures var r := GenerateTransaction(env, row, counter);
      r.Err? && r.error.UnknownActivity? ==> Classify(Lower(Trim(row["Activity"]))) == Unknown
  {
    var r := GenerateTransaction(env, row, counter);
    var date := ParseDate(env, row["Date"]);
    var fitid := Fitid(DateStr(date), counter);
    var kind := Classify(Lower(Trim(row["Activity"])));
    var funding := IsFunding(row);
    if funding.Err? {
      assert r == Err(funding.error);
      assert kind == Buy;
    } else if funding.value {
      assert r == Entry(AssetTransfer(env, row, fitid, DateStr(date)), false);
      assert kind == Buy;
    } else {
      assert r == Dispatch(env, row, kind, row["Activity"], fitid, date);
    }
  }

  /** A funding row is written as a cash transfer under the CASH security, not as a buy. */
  lemma FundingIsCashTransfer(env: Env, row: Row, counter: nat)
    requires "Date" in row && IsFunding(row) == Ok(true)
    ensures var r := GenerateTransaction(env, row, counter);
      && r.Ok?
      && r.value.security == Some(CashSecurity)
      && !r.value.entry.isBankTran
      && r.value.entry.txn.tag == "TRANSFER"
  {
    FundingConditions(row);
  }
}
