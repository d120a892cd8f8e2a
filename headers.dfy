/**
 * The CSV side of qfx.py: the clean-up of column headers and the test for
 * an empty row that ends the data.
 */
module Headers {
  import opened Text

  /** Length of the longest suffix of s whose characters all satisfy p. */
  function SuffixLength(s: string, p: char -> bool): (k: nat)
    ensures k <= |s|
    ensures forall i :: |s| - k <= i < |s| ==> p(s[i])
    ensures k < |s| ==> !p(s[|s| - k - 1])
  {
    if s == [] || !p(s[|s| - 1]) then 0 else 1 + SuffixLength(s[..|s| - 1], p)
  }

  /** re.sub(r'\s*\d+$', '', h): drop a trailing run of digits and the white space before it. */
  function StripTrailingNumber(h: string): (r: string)
    ensures |r| <= |h| && r == h[..|r|]
    ensures SuffixLength(h, IsDigit) == 0 ==> r == h
    ensures SuffixLength(h, IsDigit) > 0 ==> r == [] || !IsSpace(r[|r| - 1])
    ensures forall i :: |r| <= i < |h| ==> IsSpace(h[i]) || IsDigit(h[i])
  {
    var d := SuffixLength(h, IsDigit);
    if d == 0 then h
    else
      var u := h[..|h| - d];
      u[..|u| - SuffixLength(u, IsSpace)]
  }

  /** A header naming a price or an amount column, in any letter case. */
  predicate AmountColumn(h: string) {
    StartsWith(Lower(h), "price") || StartsWith(Lower(h), "amount")
  }

  /** normalize_header: strip, and for Price/Amount columns drop a trailing column number. */
  function NormalizeHeader(header: string): (r: string)
    ensures |r| <= |Trim(header)| && r == Trim(header)[..|r|]
    ensures !AmountColumn(Trim(header)) ==> r == Trim(header)
    ensures SuffixLength(Trim(header), IsDigit) == 0 ==> r == Trim(header)
  {
    var h := Trim(header);
    if AmountColumn(h) then StripTrailingNumber(h) else h
  }

  /** Appending text never changes the lower-cased prefix. */
  lemma LowerPrefix(a: string, b: string, p: string)
    requires StartsWith(Lower(a), p)
    ensures StartsWith(Lower(a + b), p)
  {
    LowerAppend(a, b);
    PrefixOfAppend(Lower(a), Lower(b), p);
  }

  lemma AmountColumnAppend(a: string, b: string)
    requires AmountColumn(a)
    ensures AmountColumn(a + b)
  {
    if StartsWith(Lower(a), "price") {
      LowerPrefix(a, b, "price");
    } else {
      LowerPrefix(a, b, "amount");
    }
  }

  /** The run counted by SuffixLength stops where u ends when u's last character fails p. */
  lemma {:induction false} SuffixLengthAppend(u: string, t: string, p: char -> bool)
    requires forall i :: 0 <= i < |t| ==> p(t[i])
    requires u == [] || !p(u[|u| - 1])
    ensures SuffixLength(u + t, p) == |t|
  {
    if t == [] {
      assert u + t == u;
    } else {
      var t' := t[..|t| - 1];
      assert (u + t)[..|u + t| - 1] == u + t';
      assert (u + t)[|u + t| - 1] == t[|t| - 1];
      SuffixLengthAppend(u, t', p);
    }
  }

  /** The trailing number of "<base><gap><n>" and the white space before it come off together. */
  lemma StripNumbered(base: string, gap: string, n: string)
    requires |base| > 0 && !IsSpace(base[|base| - 1])
    requires AllSpace(gap) && AllDigits(n) && |n| > 0
    requires |gap| > 0 || !IsDigit(base[|base| - 1])
    ensures StripTrailingNumber(base + gap + n) == base
  {
    var u := base + gap;
    if |gap| > 0 {
      assert u[|u| - 1] == gap[|gap| - 1];
    } else {
      assert u[|u| - 1] == base[|base| - 1];
    }
    SuffixLengthAppend(u, n, IsDigit);
    assert (u + n)[..|u + n| - |n|] == u;
    SuffixLengthAppend(base, gap, IsSpace);
    assert u[..|u| - |gap|] == base;
  }

  /**
   * A repeated Price or Amount column "<base><gap><n>" (gap white space, n
   * digits) normalises to its base name.
   */
  lemma NormalizeHeaderNumbered(base: string, gap: string, n: string)
    requires |base| > 0 && !IsSpace(base[0]) && !IsSpace(base[|base| - 1])
    requires AmountColumn(base)
    requires AllSpace(gap) && AllDigits(n) && |n| > 0
    requires |gap| > 0 || !IsDigit(base[|base| - 1])
    ensures NormalizeHeader(base + gap + n) == base
  {
    var h := base + gap + n;
    assert h[0] == base[0] && h[|h| - 1] == n[|n| - 1];
    TrimOfTrimmed(h);
    AmountColumnAppend(base, gap);
    AmountColumnAppend(base + gap, n);
    StripNumbered(base, gap, n);
  }

  /** row_is_empty: every field is blank after stripping. */
  function RowIsEmpty(row: seq<string>): (r: bool)
    ensures r <==> forall i, j :: 0 <= i < |row| && 0 <= j < |row[i]| ==> IsSpace(row[i][j])
  {
    TrimEmptyIffAllSpace(if row == [] then [] else row[0]);
    if row == [] then true
    else if Trim(row[0]) != [] then false
    else
      var rest := RowIsEmpty(row[1..]);
      assert forall i :: 1 <= i < |row| ==> row[i] == row[1..][i - 1];
      rest
  }
}
