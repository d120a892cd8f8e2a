/**
 * The security resolver of qfx.py: a row's own CUSIP when it has one,
 * otherwise the first missing-CUSIP rule, in configuration order, whose
 * description pattern matches the row's description.
 */
module Securities {
  import opened Wrappers
  import opened Text
  import opened Records

  /** The position of the first rule whose pattern is found in the description. */
  function FirstMatch(rules: seq<MissingCusipRule>, matches: (string, string) -> bool, description: string)
    : (r: Option<nat>)
    ensures r.Some? ==> r.value < |rules| && matches(rules[r.value].descriptionRegex, description)
    ensures r.Some? ==> forall j :: 0 <= j < r.value ==> !matches(rules[j].descriptionRegex, description)
    ensures r.None? ==> forall j :: 0 <= j < |rules| ==> !matches(rules[j].descriptionRegex, description)
  {
    if rules == [] then None
    else if matches(rules[0].descriptionRegex, description) then Some(0)
    else
      var rest := FirstMatch(rules[1..], matches, description);
      if rest.None? then None else Some(rest.value + 1)
  }

  /** The first match is the only index that is a match with no match before it. */
  lemma FirstMatchUnique(rules: seq<MissingCusipRule>, matches: (string, string) -> bool, description: string, i: nat)
    requires i < |rules| && matches(rules[i].descriptionRegex, description)
    requires forall j :: 0 <= j < i ==> !matches(rules[j].descriptionRegex, description)
    ensures FirstMatch(rules, matches, description) == Some(i)
  {
  }

  /** generate_buysell_secid: the SECID a buy, sell or income row refers to. */
  function BuySellSecId(env: Env, row: Row): (r: Result<SecId, Error>)
    ensures r.Err? ==> r.error.MissingColumn? || r.error.UnresolvedSecurity?
  {
    var cusip :- Stripped(row, "CUSIP");
    if cusip != [] then Ok(SecId(cusip, "CUSIP"))
    else
      var description :- Stripped(row, "Description");
      var m := FirstMatch(env.rules, env.matches, description);
      if m.None? then Err(UnresolvedSecurity(description))
      else Ok(SecId(env.rules[m.value].uniqueId, "OTHER"))
  }

  /** The SECINFO aggregate of a SECLIST entry. */
  function SecInfoElem(tag: string, id: SecId, name: string): Elem {
    Node(tag, [Node("SECINFO", [SecIdElem(id), Leaf("SECNAME", name), Leaf("TICKER", name)])])
  }

  /** generate_buysell_security_info: the SECLIST entry of a row and its key. */
  function BuySellSecurityInfo(env: Env, row: Row): (r: Result<SecurityInfo, Error>)
    ensures r.Err? ==> r.error.MissingColumn? || r.error.UnresolvedSecurity?
    ensures "CUSIP" in row && Trim(row["CUSIP"]) != [] ==>
      (r.Ok? <==> "Symbol" in row) && (r.Ok? ==> r.value.uniqueId == Trim(row["CUSIP"]))
  {
    var symbol :- Stripped(row, "Symbol");
    var cusip :- Stripped(row, "CUSIP");
    if cusip != [] then
      var name := if symbol == [] then cusip else symbol;
      var tag := if env.isFund(name) then "MFINFO" else "STOCKINFO";
      var id := BuySellSecId(env, row).value;
      Ok(SecurityInfo(cusip, SecInfoElem(tag, id, name)))
    else
      var description :- Stripped(row, "Description");
      var m := FirstMatch(env.rules, env.matches, description);
      if m.None? then Err(UnresolvedSecurity(description))
      else
        var rule := env.rules[m.value];
        var id := BuySellSecId(env, row).value;
        Ok(SecurityInfo(rule.symbol, SecInfoElem(rule.infoTag, id, rule.symbol)))
  }

  /**
   * The resolver's outcomes: a non-blank CUSIP is used as it is; a blank one
   * is replaced by the uniqueid of the first matching rule, typed OTHER; and
   * with no matching rule the row is rejected.
   */
  lemma SecIdResolution(env: Env, row: Row)
    requires "CUSIP" in row && "Description" in row
    ensures var cusip := Trim(row["CUSIP"]);
      cusip != [] ==> BuySellSecId(env, row) == Ok(SecId(cusip, "CUSIP"))
    ensures var cusip, description := Trim(row["CUSIP"]), Trim(row["Description"]);
      forall i :: 0 <= i < |env.rules| && env.matches(env.rules[i].descriptionRegex, description)
                  && (forall j :: 0 <= j < i ==> !env.matches(env.rules[j].descriptionRegex, description))
                  && cusip == []
        ==> BuySellSecId(env, row) == Ok(SecId(env.rules[i].uniqueId, "OTHER"))
    ensures var cusip, description := Trim(row["CUSIP"]), Trim(row["Description"]);
      BuySellSecId(env, row) == Err(UnresolvedSecurity(description))
      <==> cusip == [] && forall j :: 0 <= j < |env.rules| ==> !env.matches(env.rules[j].descriptionRegex, description)
  {
    var description := Trim(row["Description"]);
    forall i | 0 <= i < |env.rules| && env.matches(env.rules[i].descriptionRegex, description)
               && (forall j :: 0 <= j < i ==> !env.matches(env.rules[j].descriptionRegex, description))
      ensures FirstMatch(env.rules, env.matches, description) == Some(i)
    {
      FirstMatchUnique(env.rules, env.matches, description, i);
    }
  }

  /**
   * The SECLIST key is the CUSIP, or on the fallback path the matching rule's
   * symbol, while the SECID inside the entry carries the rule's uniqueid; and
   * the entry resolves exactly when the SECID does.
   */
  lemma SecurityKey(env: Env, row: Row)
    requires "Symbol" in row && "CUSIP" in row && "Description" in row
    ensures BuySellSecurityInfo(env, row).Ok? <==> BuySellSecId(env, row).Ok?
    ensures BuySellSecurityInfo(env, row).Err? ==> BuySellSecurityInfo(env, row) == BuySellSecId(env, row).PropagateFailure()
    ensures var cusip := Trim(row["CUSIP"]);
      BuySellSecurityInfo(env, row).Ok? && cusip != [] ==> BuySellSecurityInfo(env, row).value.uniqueId == cusip
    ensures var cusip, description := Trim(row["CUSIP"]), Trim(row["Description"]);
      var m := FirstMatch(env.rules, env.matches, description);
      BuySellSecurityInfo(env, row).Ok? && cusip == [] ==>
        && m.Some?
        && BuySellSecurityInfo(env, row).value.uniqueId == env.rules[m.value].symbol
        && BuySellSecId(env, row).value.uniqueId == env.rules[m.value].uniqueId
  {
  }

  /** generate_buysell_secid as written: the CUSIP, or a search of the rules that stops at the first match. */
  method ResolveSecId(env: Env, row: Row) returns (r: Result<SecId, Error>)
    ensures r == BuySellSecId(env, row)
  {
    if "CUSIP" !in row {
      return Err(MissingColumn("CUSIP"));
    }
    var cusip := Trim(row["CUSIP"]);
    if cusip != [] {
      return Ok(SecId(cusip, "CUSIP"));
    }
    if "Description" !in row {
      return Err(MissingColumn("Description"));
    }
    var description := Trim(row["Description"]);
    var i := 0;
    var found := false;
    while i < |env.rules|
      invariant 0 <= i <= |env.rules|
      invariant forall j :: 0 <= j < i ==> !env.matches(env.rules[j].descriptionRegex, description)
    {
      if env.matches(env.rules[i].descriptionRegex, description) {
        found := true;
        break;
      }
      i := i + 1;
    }
    if found {
      FirstMatchUnique(env.rules, env.matches, description, i);
      r := Ok(SecId(env.rules[i].uniqueId, "OTHER"));
    } else {
      r := Err(UnresolvedSecurity(description));
    }
  }

  /** generate_buysell_security_info as written, with its own search of the rules. */
  method ResolveSecurityInfo(env: Env, row: Row) returns (r: Result<SecurityInfo, Error>)
    ensures r == BuySellSecurityInfo(env, row)
  {
    if "Symbol" !in row {
      return Err(MissingColumn("Symbol"));
    }
    var symbol := Trim(row["Symbol"]);
    if "CUSIP" !in row {
      return Err(MissingColumn("CUSIP"));
    }
    var cusip := Trim(row["CUSIP"]);
    if cusip != [] {
      if symbol == [] {
        symbol := cusip;
      }
      var tag := if env.isFund(symbol) then "MFINFO" else "STOCKINFO";
      var id := ResolveSecId(env, row);
      return Ok(SecurityInfo(cusip, SecInfoElem(tag, id.value, symbol)));
    }
    if "Description" !in row {
      return Err(MissingColumn("Description"));
    }
    var description := Trim(row["Description"]);
    var i := 0;
    var found := false;
    while i < |env.rules|
      invariant 0 <= i <= |env.rules|
      invariant forall j :: 0 <= j < i ==> !env.matches(env.rules[j].descriptionRegex, description)
    {
      if env.matches(env.rules[i].descriptionRegex, description) {
        found := true;
        break;
      }
      i := i + 1;
    }
    if !found {
      return Err(UnresolvedSecurity(description));
    }
    FirstMatchUnique(env.rules, env.matches, description, i);
    var rule := env.rules[i];
    var id := ResolveSecId(env, row);
    r := Ok(SecurityInfo(rule.symbol, SecInfoElem(rule.infoTag, id.value, rule.symbol)));
  }
}
