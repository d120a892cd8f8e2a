/**
 * The numeric field normalisers of qfx.py: currency amounts, quantities and
 * the unit price derived from them.
 */
module Amounts {
  import opened Wrappers
  import opened Text
  import opened Decimal

  // ---------------------------------------------------------------------
  // Currency and quantity

  /** Surrounding parentheses, when the text both starts with '(' and ends with ')'. */
  function StripParens(s: string): (r: (bool, string))
    ensures r.0 ==> |s| >= 2 && r.1 == s[1..|s| - 1]
    ensures !r.0 ==> r.1 == s
  {
    // A one-character string cannot both start with '(' and end with ')',
    // so `|s| >= 2` adds nothing to the test in the source.
    if |s| >= 2 && s[0] == '(' && s[|s| - 1] == ')' then (true, s[1..|s| - 1]) else (false, s)
  }

  /** Leading '-' characters, and the white space after them. */
  function StripDashes(s: string): (r: (bool, string))
    ensures r.0 <==> |s| > 0 && s[0] == '-'
    ensures !r.0 ==> r.1 == s
  {
    if |s| > 0 && s[0] == '-' then (true, Trim(TrimLeftChar(s, '-'))) else (false, s)
  }

  /** The '$' and ',' characters removed, then white space stripped. */
  function CleanDigits(s: string): (r: string)
    ensures '$' !in r && ',' !in r
  {
    var t := RemoveChar(RemoveChar(s, '$'), ',');
    RemoveCharKeeps(RemoveChar(s, '$'), ',', '$');
    TrimKeeps(t, '$');
    TrimKeeps(t, ',');
    Trim(t)
  }

  /**
   * The sign markers and numeric text of a stripped, non-empty currency
   * field: parentheses first, then '$' and ',' and white space, then leading
   * '-' characters.
   */
  function CurrencyParts(s: string): (r: (bool, string)) {
    var paren := StripParens(s);
    var dash := StripDashes(CleanDigits(paren.1));
    (paren.0 || dash.0, dash.1)
  }

  /**
   * normalize_currency: None for a blank field; "0.00" when the number does
   * not parse (before the inversion flag is looked at); otherwise the value,
   * negated for parentheses or a leading '-', negated again when
   * inverseAmount is set, formatted with two fraction digits.
   */
  function NormalizeCurrency(value: string, inverseAmount: bool): (r: Option<string>)
    ensures r.None? <==> Trim(value) == []
  {
    var s := Trim(value);
    if s == [] then None
    else
      var parts := CurrencyParts(s);
      var num := PyFloat(parts.1);
      if num.None? then Some("0.00")
      else
        var flip := parts.0 != inverseAmount;
        Some(FormatNum(if flip then Negate(num.value) else num.value, 2))
  }

  /** normalize_quantity: strip, then drop thousands separators. */
  function NormalizeQuantity(value: string): (r: string)
    ensures ',' !in r && |r| <= |value|
    ensures ',' !in Trim(value) ==> r == Trim(value)
  {
    RemoveChar(Trim(value), ',')
  }

  /**
   * A quantity written with a thousands separator, "p,q", becomes the digits
   * of p followed by those of q, and reads as the number they spell.
   */
  lemma QuantityGrouped(p: string, q: string)
    requires AllDigits(p) && AllDigits(q)
    ensures NormalizeQuantity(p + "," + q) == p + q
    ensures |p + q| > 0 ==> PyFloat(NormalizeQuantity(p + "," + q)) == Some(Num(false, DigitsValue(p + q), 0))
  {
    var s := p + [','] + q;
    assert s == p + "," + q;
    GroupedStripped(p, q, ',');
    DigitsHaveNo(p, ',');
    DigitsHaveNo(q, ',');
    RemoveSeparator(p, q, ',');
    DigitsAppend(p, q);
    if |p + q| > 0 {
      ParseDigits(p + q);
    }
  }

  /** A digit string holds no other character. */
  lemma DigitsHaveNo(s: string, c: char)
    requires AllDigits(s) && !IsDigit(c)
    ensures c !in s
  {
    assert forall i :: 0 <= i < |s| ==> IsDigit(s[i]);
  }

  lemma DigitsAppend(p: string, q: string)
    requires AllDigits(p) && AllDigits(q)
    ensures AllDigits(p + q)
  {
    var b := p + q;
    forall i | 0 <= i < |b| ensures IsDigit(b[i]) {
      if i < |p| { assert b[i] == p[i]; } else { assert b[i] == q[i - |p|]; }
    }
  }

  /** Digits joined by a non-space separator have no white space at either end. */
  lemma GroupedStripped(p: string, q: string, c: char)
    requires AllDigits(p) && AllDigits(q) && !IsSpace(c)
    ensures Trim(p + [c] + q) == p + [c] + q
  {
    var s := p + [c] + q;
    assert s[0] == c || IsDigit(s[0]);
    assert s[|s| - 1] == c || IsDigit(s[|s| - 1]);
    TrimOfTrimmed(s);
  }

  /** Removing the only kind of separator joins the pieces around it. */
  lemma RemoveSeparator(p: string, q: string, c: char)
    requires c !in p && c !in q
    ensures RemoveChar(p + [c] + q, c) == p + q
  {
    RemoveCharAppend(p + [c], q, c);
    RemoveCharAppend(p, [c], c);
    RemoveCharSingle(c, c);
    assert p + [] == p;
  }

  /** A non-empty digit string reads as the whole number it spells. */
  lemma ParseDigits(b: string)
    requires AllDigits(b) && |b| > 0
    ensures PyFloat(b) == Some(Num(false, DigitsValue(b), 0))
  {
    DigitsHaveNo(b, '.');
    assert Trim(b) == b by {
      assert IsDigit(b[0]) && IsDigit(b[|b| - 1]);
      TrimOfTrimmed(b);
    }
    FindCharAbsent(b, '.');
    assert b[..|b|] == b && b + [] == b;
    assert IsDigit(b[0]);
  }

  /** Digits and dots carry no white space, '$', ',', '(' or '-'. */
  lemma UnsignedTextClean(b: string)
    requires UnsignedText(b)
    ensures Trim(b) == b && CleanDigits(b) == b
    ensures b[0] != '(' && b[0] != '-' && b[0] != '+'
    ensures '$' !in b && ',' !in b
  {
    assert !IsSpace(b[0]) && !IsSpace(b[|b| - 1]);
    TrimOfTrimmed(b);
    assert '$' !in b && ',' !in b;
  }

  /** The same with one '-' in front. */
  lemma DashedTextClean(b: string)
    requires UnsignedText(b)
    ensures CleanDigits("-" + b) == "-" + b
    ensures TrimLeftChar("-" + b, '-') == b
  {
    UnsignedTextClean(b);
    var m := "-" + b;
    assert m[0] == '-' && m[|m| - 1] == b[|b| - 1] && m[1..] == b;
    assert '$' !in m && ',' !in m;
    TrimOfTrimmed(m);
  }

  /** A stripped field whose parts are known normalises by those parts. */
  lemma CurrencyByParts(s: string, inverseAmount: bool, negative: bool, b: string)
    requires s != [] && Trim(s) == s && CurrencyParts(s) == (negative, b)
    requires ParseUnsigned(b).Some? && UnsignedText(b)
    ensures NormalizeCurrency(s, inverseAmount)
            == Some(FormatNum(ParseUnsigned(b).value.(neg := negative != inverseAmount), 2))
  {
    UnsignedTextClean(b);
    assert PyFloat(b) == ParseUnsigned(b);
  }

  lemma PartsPlain(b: string)
    requires UnsignedText(b)
    ensures CurrencyParts(b) == (false, b)
  {
    UnsignedTextClean(b);
  }

  lemma PartsDash(b: string)
    requires UnsignedText(b)
    ensures CurrencyParts("-" + b) == (true, b)
  {
    UnsignedTextClean(b);
    DashedTextClean(b);
    assert ("-" + b)[0] == '-';
  }

  lemma PartsParens(b: string)
    requires UnsignedText(b)
    ensures CurrencyParts("(" + b + ")") == (true, b)
  {
    UnsignedTextClean(b);
    var p := "(" + b + ")";
    assert p[0] == '(' && p[|p| - 1] == ')' && p[1..|p| - 1] == b;
  }

  lemma PartsParensDash(b: string)
    requires UnsignedText(b)
    ensures CurrencyParts("(-" + b + ")") == (true, b)
  {
    UnsignedTextClean(b);
    DashedTextClean(b);
    var q := "(-" + b + ")";
    assert q[0] == '(' && q[|q| - 1] == ')' && q[1..|q| - 1] == "-" + b;
    assert ("-" + b)[0] == '-';
  }

  /** None of the four sign forms has white space at either end. */
  lemma SignFormsStripped(b: string)
    requires UnsignedText(b)
    ensures Trim(b) == b && Trim("-" + b) == "-" + b
    ensures Trim("(" + b + ")") == "(" + b + ")" && Trim("(-" + b + ")") == "(-" + b + ")"
  {
    UnsignedTextClean(b);
    var m, p, q := "-" + b, "(" + b + ")", "(-" + b + ")";
    assert m[0] == '-' && m[|m| - 1] == b[|b| - 1];
    assert p[0] == '(' && p[|p| - 1] == ')';
    assert q[0] == '(' && q[|q| - 1] == ')';
    TrimOfTrimmed(m);
    TrimOfTrimmed(p);
    TrimOfTrimmed(q);
  }

  /**
   * Sign rules: parentheses or a leading '-' make the value negative, both
   * together are still just negative, and inverseAmount flips the result.
   */
  lemma CurrencySigns(b: string, inverseAmount: bool)
    requires ParseUnsigned(b).Some?
    ensures var n := ParseUnsigned(b).value;
      && NormalizeCurrency(b, inverseAmount) == Some(FormatNum(n.(neg := inverseAmount), 2))
      && NormalizeCurrency("-" + b, inverseAmount) == Some(FormatNum(n.(neg := !inverseAmount), 2))
      && NormalizeCurrency("(" + b + ")", inverseAmount) == Some(FormatNum(n.(neg := !inverseAmount), 2))
      && NormalizeCurrency("(-" + b + ")", inverseAmount) == Some(FormatNum(n.(neg := !inverseAmount), 2))
  {
    ParsedIsUnsignedText(b);
    SignFormsStripped(b);
    PartsPlain(b);
    CurrencyByParts(b, inverseAmount, false, b);
    PartsDash(b);
    CurrencyByParts("-" + b, inverseAmount, true, b);
    PartsParens(b);
    CurrencyByParts("(" + b + ")", inverseAmount, true, b);
    PartsParensDash(b);
    CurrencyByParts("(-" + b + ")", inverseAmount, true, b);
  }

  /**
   * A dollar sign and a thousands separator are dropped before the number is
   * read: "$p,q" with a sign marker normalises like the plain digits "pq"
   * with the same marker.
   */
  lemma CurrencySignsGrouped(p: string, q: string, inverseAmount: bool)
    requires AllDigits(p) && |p| > 0 && UnsignedText(q) && ParseUnsigned(p + q).Some?
    ensures var raw, n := "$" + p + "," + q, ParseUnsigned(p + q).value;
      && NormalizeCurrency(raw, inverseAmount) == Some(FormatNum(n.(neg := inverseAmount), 2))
      && NormalizeCurrency("-" + raw, inverseAmount) == Some(FormatNum(n.(neg := !inverseAmount), 2))
      && NormalizeCurrency("(" + raw + ")", inverseAmount) == Some(FormatNum(n.(neg := !inverseAmount), 2))
      && NormalizeCurrency("(-" + raw + ")", inverseAmount) == Some(FormatNum(n.(neg := !inverseAmount), 2))
  {
    var raw, b := "$" + p + "," + q, p + q;
    GroupedParts(p, q);
    GroupedStrippedForms(p, q);
    CurrencyByParts(raw, inverseAmount, false, b);
    CurrencyByParts("-" + raw, inverseAmount, true, b);
    CurrencyByParts("(" + raw + ")", inverseAmount, true, b);
    CurrencyByParts("(-" + raw + ")", inverseAmount, true, b);
  }

  /** Digits followed by digits and dots are digits and dots. */
  lemma GroupedText(p: string, q: string)
    requires AllDigits(p) && |p| > 0 && UnsignedText(q)
    ensures UnsignedText(p + q)
    ensures '$' !in p && ',' !in p && '$' !in q && ',' !in q
  {
    var b := p + q;
    forall i | 0 <= i < |b| ensures IsDigit(b[i]) || b[i] == '.' {
      if i < |p| { assert b[i] == p[i]; } else { assert b[i] == q[i - |p|]; }
    }
    DigitsHaveNo(p, '$');
    DigitsHaveNo(p, ',');
    UnsignedTextClean(q);
  }

  /** The sign markers and digits of the four forms of "$p,q". */
  lemma GroupedParts(p: string, q: string)
    requires AllDigits(p) && |p| > 0 && UnsignedText(q)
    ensures var raw, b := "$" + p + "," + q, p + q;
      && UnsignedText(b)
      && CurrencyParts(raw) == (false, b)
      && CurrencyParts("-" + raw) == (true, b)
      && CurrencyParts("(" + raw + ")") == (true, b)
      && CurrencyParts("(-" + raw + ")") == (true, b)
  {
    var raw := "$" + p + "," + q;
    GroupedPartsBare(p, q);
    PartsWithoutParens(raw);
    PartsWithoutParens("-" + raw);
    PartsInParens(raw);
    PartsInParensDash(raw);
  }

  /** A field that does not open with '(' has only its dash marker and cleaned text as parts. */
  lemma PartsWithoutParens(t: string)
    requires t != [] && t[0] != '('
    ensures CurrencyParts(t) == StripDashes(CleanDigits(t))
  {
  }

  /** A parenthesised field is negative, with the parts of the text inside. */
  lemma PartsInParens(t: string)
    ensures CurrencyParts("(" + t + ")") == (true, StripDashes(CleanDigits(t)).1)
  {
    var pr := "(" + t + ")";
    assert pr[0] == '(' && pr[|pr| - 1] == ')' && pr[1..|pr| - 1] == t;
  }

  /** The same for a parenthesised field that opens with '-' inside. */
  lemma PartsInParensDash(t: string)
    ensures CurrencyParts("(-" + t + ")") == (true, StripDashes(CleanDigits("-" + t)).1)
  {
    var pr := "(-" + t + ")";
    assert pr[0] == '(' && pr[|pr| - 1] == ')' && pr[1..|pr| - 1] == "-" + t;
  }

  /** Without parentheses: "$p,q" is positive and "-$p,q" negative, both with digits "pq". */
  lemma GroupedPartsBare(p: string, q: string)
    requires AllDigits(p) && |p| > 0 && UnsignedText(q)
    ensures var raw, b := "$" + p + "," + q, p + q;
      && UnsignedText(b)
      && StripDashes(CleanDigits(raw)) == (false, b)
      && StripDashes(CleanDigits("-" + raw)) == (true, b)
      && raw[0] == '$' && ("-" + raw)[0] == '-'
  {
    GroupedText(p, q);
    GroupedClean(p, q);
    GroupedCleanDashed(p, q);
    var b := p + q;
    UnsignedTextClean(b);
    DashedTextClean(b);
    assert ("-" + b)[0] == '-';
  }

  /** Removing '$' and then ',' from "$p,q" leaves the digits pq. */
  lemma GroupedRemoved(p: string, q: string)
    requires AllDigits(p) && |p| > 0 && UnsignedText(q)
    ensures RemoveChar(RemoveChar("$" + p + "," + q, '$'), ',') == p + q
  {
    GroupedText(p, q);
    var rest := p + [','] + q;
    assert "$" + p + "," + q == [] + ['$'] + rest;
    RemoveSeparator([], rest, '$');
    assert [] + rest == rest;
    RemoveSeparator(p, q, ',');
  }

  lemma GroupedClean(p: string, q: string)
    requires AllDigits(p) && |p| > 0 && UnsignedText(q)
    ensures CleanDigits("$" + p + "," + q) == p + q
  {
    GroupedRemoved(p, q);
    GroupedText(p, q);
    UnsignedTextClean(p + q);
  }

  lemma GroupedCleanDashed(p: string, q: string)
    requires AllDigits(p) && |p| > 0 && UnsignedText(q)
    ensures CleanDigits("-" + ("$" + p + "," + q)) == "-" + (p + q)
  {
    var raw := "$" + p + "," + q;
    GroupedRemoved(p, q);
    RemoveCharCons('-', raw, '$');
    RemoveCharCons('-', RemoveChar(raw, '$'), ',');
    GroupedText(p, q);
    SignFormsStripped(p + q);
  }

  /** None of the four forms of "$p,q" has white space at either end. */
  lemma GroupedStrippedForms(p: string, q: string)
    requires AllDigits(p) && |p| > 0 && UnsignedText(q)
    ensures var raw := "$" + p + "," + q;
      && Trim(raw) == raw && Trim("-" + raw) == "-" + raw
      && Trim("(" + raw + ")") == "(" + raw + ")" && Trim("(-" + raw + ")") == "(-" + raw + ")"
  {
    var raw := "$" + p + "," + q;
    var m, pr, pm := "-" + raw, "(" + raw + ")", "(-" + raw + ")";
    assert IsDigit(q[|q| - 1]) || q[|q| - 1] == '.';
    assert raw[0] == '$' && raw[|raw| - 1] == q[|q| - 1];
    assert m[0] == '-' && m[|m| - 1] == q[|q| - 1];
    assert pr[0] == '(' && pr[|pr| - 1] == ')';
    assert pm[0] == '(' && pm[|pm| - 1] == ')';
    TrimOfTrimmed(raw);
    TrimOfTrimmed(m);
    TrimOfTrimmed(pr);
    TrimOfTrimmed(pm);
  }

  /**
   * A field whose text is left unreadable once the sign markers, '$' and ','
   * are gone normalises to "0.00", whichever way the inversion flag points.
   */
  lemma CurrencyFallback(value: string)
    requires Trim(value) != [] && PyFloat(CurrencyParts(Trim(value)).1).None?
    ensures NormalizeCurrency(value, false) == Some("0.00")
    ensures NormalizeCurrency(value, true) == Some("0.00")
  {
  }

  /** Zero with two fraction digits, the rendering of an unparseable amount. */
  lemma ZeroRendering()
    ensures FormatSigned(false, 0, 2) == "0.00"
  {
    assert NatToString(0) == "0";
    assert Zeros(2) == "00";
    assert PadNat(0, 3) == "000";
  }

  /** Every normalised amount is a rendered fixed-point number with two fraction digits. */
  lemma CurrencyForm(value: string, inverseAmount: bool) returns (neg: bool, units: nat)
    requires NormalizeCurrency(value, inverseAmount).Some?
    ensures NormalizeCurrency(value, inverseAmount) == Some(FormatSigned(neg, units, 2))
  {
    var parts := CurrencyParts(Trim(value));
    var num := PyFloat(parts.1);
    if num.None? {
      neg, units := false, 0;
      ZeroRendering();
    } else {
      var x := if parts.0 != inverseAmount then Negate(num.value) else num.value;
      neg, units := x.neg, Units(x, 2);
      assert NormalizeCurrency(value, inverseAmount) == Some(FormatNum(x, 2));
    }
  }

  /** A rendered amount normalises to itself. */
  lemma RenderedCurrency(neg: bool, units: nat)
    ensures NormalizeCurrency(FormatSigned(neg, units, 2), false) == Some(FormatSigned(neg, units, 2))
  {
    var f := FormatFixed(units, 2);
    FormatFixedShape(units, 2);
    ParseFormatFixed(units, 2);
    assert ParseUnsigned(f) == Some(Num(false, units, 2));
    CurrencySigns(f, false);
    RoundExact(units, 2);
    if neg {
      assert FormatSigned(neg, units, 2) == "-" + f;
    } else {
      assert FormatSigned(neg, units, 2) == f;
    }
  }

  /** Normalising an already normalised amount gives it back unchanged. */
  lemma CurrencyIdempotent(value: string, inverseAmount: bool)
    requires NormalizeCurrency(value, inverseAmount).Some?
    ensures NormalizeCurrency(NormalizeCurrency(value, inverseAmount).value, false)
            == NormalizeCurrency(value, inverseAmount)
  {
    var neg, units := CurrencyForm(value, inverseAmount);
    RenderedCurrency(neg, units);
  }

  // ---------------------------------------------------------------------
  // Unit price

  /**
   * compute_price: |amount| / |quantity| with nine fraction digits, or
   * "0.00" when either does not parse or the quantity is zero. The source's
   * `if x < 0: x = -x` leaves a negative zero amount negative, so the result
   * then reads "-0.000000000".
   */
  function ComputePrice(quantity: string, amount: string): (r: string)
  {
    match PyFloat(quantity)
    case None => "0.00"
    case Some(q0) =>
      var q := AbsLt(q0);
      match PyFloat(amount)
      case None => "0.00"
      case Some(a0) =>
        PriceRatio(q, AbsLt(a0))
  }

  /** a / q with nine fraction digits, or "0.00" for a zero quantity. */
  function PriceRatio(q: Num, a: Num): string {
    if q.mant == 0 then "0.00"
    else
      PositiveProduct(q.mant, Pow10(a.scale));
      FormatFloat(a.neg != q.neg, a.mant * Pow10(q.scale), q.mant * Pow10(a.scale), 9)
  }

  /** A quantity or amount that does not parse, or a zero quantity, gives the "0.00" fallback. */
  lemma ComputePriceFallback(quantity: string, amount: string)
    requires PyFloat(quantity).None? || PyFloat(amount).None? || PyFloat(quantity).value.mant == 0
    ensures ComputePrice(quantity, amount) == "0.00"
  {
  }

  /**
   * Otherwise the price is |amount| / |quantity| rounded to nine fraction
   * digits: `units` is within half a unit of 10^9 times the ratio. It is
   * negative only for a negative-zero amount, which `a < 0` does not flip.
   */
  lemma ComputePriceValue(quantity: string, amount: string) returns (units: nat)
    requires PyFloat(quantity).Some? && PyFloat(amount).Some?
    requires PyFloat(quantity).value.mant != 0
    ensures var q := PyFloat(quantity).value;
      var a := PyFloat(amount).value;
      var num := a.mant * Pow10(q.scale) * Pow10(9);
      var den := q.mant * Pow10(a.scale);
      && ComputePrice(quantity, amount) == FormatSigned(a.neg && a.mant == 0, units, 9)
      && -den <= 2 * (num - units * den) <= den
  {
    units := PriceRatioValue(AbsLt(PyFloat(quantity).value), AbsLt(PyFloat(amount).value));
  }

  /** The ratio of two parsed numbers, as the digits `PriceRatio` renders. */
  lemma PriceRatioValue(q: Num, a: Num) returns (units: nat)
    requires q.mant != 0
    ensures var num := a.mant * Pow10(q.scale) * Pow10(9);
      var den := q.mant * Pow10(a.scale);
      && PriceRatio(q, a) == FormatSigned(a.neg != q.neg, units, 9)
      && -den <= 2 * (num - units * den) <= den
  {
    var num := a.mant * Pow10(q.scale);
    var den := q.mant * Pow10(a.scale);
    PositiveProduct(q.mant, Pow10(a.scale));
    units := RoundDiv(num * Pow10(9), den);
    RoundDivNearest(num * Pow10(9), den);
  }

  /** The price carries a '-' only for a negative-zero amount over a non-zero quantity. */
  lemma ComputePriceSign(quantity: string, amount: string)
    ensures StartsWith(ComputePrice(quantity, amount), "-") <==>
      && PyFloat(quantity).Some? && PyFloat(quantity).value.mant != 0
      && PyFloat(amount).Some? && PyFloat(amount).value.neg && PyFloat(amount).value.mant == 0
  {
    if PyFloat(quantity).Some? && PyFloat(amount).Some? && PyFloat(quantity).value.mant != 0 {
      var units := ComputePriceValue(quantity, amount);
      var a := PyFloat(amount).value;
      FormatSignedSign(a.neg && a.mant == 0, units, 9);
    } else {
      ComputePriceFallback(quantity, amount);
      assert ComputePrice(quantity, amount)[..1] == "0";
    }
  }
}
