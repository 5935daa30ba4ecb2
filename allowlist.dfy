/**
 * Parsing of the comma-separated allowlists the server reads from its
 * environment at startup: the origin allowlist and the IP allowlist.
 */
module Allowlist {
  import opened Js

  /**
   * What an entry of a parsed list looks like: non-empty, no whitespace at
   * either end, and no comma (commas separate entries).
   */
  predicate IsEntry(x: string) {
    x != "" && IsTrimmed(x) && ',' !in x
  }

  /** `tokens.map(s => s.trim()).filter(Boolean)`. */
  function Clean(tokens: seq<string>): (r: seq<string>)
    ensures |r| <= |tokens|
    ensures forall i :: 0 <= i < |r| ==> r[i] != "" && IsTrimmed(r[i])
    decreases |tokens|
  {
    if tokens == [] then []
    else
      var t := Trim(tokens[0]);
      var rest := Clean(tokens[1..]);
      if t == "" then rest
      else
        assert forall i :: 0 < i <= |rest| ==> ([t] + rest)[i] == rest[i - 1];
        [t] + rest
  }

  /** Some token of `tokens` trims to `x`. */
  predicate SomeTrimsTo(tokens: seq<string>, x: string) {
    exists j :: 0 <= j < |tokens| && Trim(tokens[j]) == x
  }

  /** A token trims to `x` when the first one does or one of the others does. */
  lemma SomeTrimsToCons(tokens: seq<string>, x: string)
    requires tokens != []
    ensures SomeTrimsTo(tokens, x) <==> Trim(tokens[0]) == x || SomeTrimsTo(tokens[1..], x)
  {
    if SomeTrimsTo(tokens, x) {
      var j :| 0 <= j < |tokens| && Trim(tokens[j]) == x;
      if j > 0 {
        assert tokens[1..][j - 1] == tokens[j];
      }
    }
    if SomeTrimsTo(tokens[1..], x) {
      var j :| 0 <= j < |tokens[1..]| && Trim(tokens[1..][j]) == x;
      assert tokens[j + 1] == tokens[1..][j];
    }
  }

  /** A string is kept by `Clean` exactly when it is the non-empty trim of one of the tokens. */
  lemma {:induction false} CleanMembers(tokens: seq<string>, x: string)
    ensures x in Clean(tokens) <==> x != "" && SomeTrimsTo(tokens, x)
    decreases |tokens|
  {
    if tokens != [] {
      CleanMembers(tokens[1..], x);
      SomeTrimsToCons(tokens, x);
    }
  }

  /** Trimming a string that has no comma cannot produce one. */
  lemma TrimKeepsCommaFree(t: string)
    requires Free(t, ",")
    ensures ',' !in Trim(t)
  {
    var k := SkipSpaces(t, 0);
    CommaFreeInfix(t, k, Trim(t));
  }

  /** A piece of a comma-free string is comma-free. */
  lemma CommaFreeInfix(t: string, k: nat, r: string)
    requires k + |r| <= |t| && r == t[k..k + |r|] && Free(t, ",")
    ensures ',' !in r
  {
    forall j | 0 <= j < |r| ensures r[j] != ',' {
      assert r[j] == t[k + j];
      NoCommaAt(t, k + j);
    }
  }

  /** A string without an occurrence of `","` has no comma at any index. */
  lemma NoCommaAt(t: string, i: nat)
    requires i < |t| && Free(t, ",")
    ensures t[i] != ','
  {
    assert !OccursAt(t, ",", i);
    assert t[i..i + 1] == [t[i]];
  }

  /** `raw.split(',').map(s => s.trim()).filter(Boolean)`. */
  function ParseList(raw: string): (r: seq<string>)
    ensures forall i :: 0 <= i < |r| ==> IsEntry(r[i])
  {
    var tokens := Split(raw, ",");
    var r := Clean(tokens);
    forall i | 0 <= i < |r| ensures ',' !in r[i] {
      CleanMembers(tokens, r[i]);
      var j :| 0 <= j < |tokens| && Trim(tokens[j]) == r[i];
      TrimKeepsCommaFree(tokens[j]);
    }
    r
  }

  /**
   * Membership in a parsed list: `x` is listed exactly when it is non-empty
   * and is the trim of one of the comma-separated tokens of `raw`.
   */
  lemma ParseListMembers(raw: string, x: string)
    ensures x in ParseList(raw) <==> x != "" && SomeTrimsTo(Split(raw, ","), x)
  {
    CleanMembers(Split(raw, ","), x);
    assert ParseList(raw) == Clean(Split(raw, ","));
  }

  /** A parsed list is empty exactly when every token is blank. */
  lemma ParseListBlank(raw: string)
    ensures |ParseList(raw)| == 0 <==> forall j :: 0 <= j < |Split(raw, ",")| ==> Trim(Split(raw, ",")[j]) == ""
  {
    CleanEmpty(Split(raw, ","));
    assert ParseList(raw) == Clean(Split(raw, ","));
  }

  /** `Clean` drops everything exactly when every token trims to the empty string. */
  lemma {:induction false} CleanEmpty(tokens: seq<string>)
    ensures |Clean(tokens)| == 0 <==> forall j :: 0 <= j < |tokens| ==> Trim(tokens[j]) == ""
    decreases |tokens|
  {
    if tokens != [] {
      CleanEmpty(tokens[1..]);
      assert forall j :: 1 <= j < |tokens| ==> tokens[j] == tokens[1..][j - 1];
    }
  }

  /** A string made of whitespace and `*` only has no comma. */
  lemma SpacedStarCommaFree(raw: string)
    requires Trim(raw) == "*"
    ensures Free(raw, ",")
  {
    var k := SkipSpaces(raw, 0);
    forall i | 0 <= i < |raw| ensures raw[i] != ',' {
      if i == k {
        assert raw[k..k + 1][0] == raw[i];
      }
    }
    forall j: nat | j <= |raw| ensures !OccursAt(raw, ",", j) {
      if j < |raw| {
        assert raw[j..j + 1][0] == raw[j];
      }
    }
  }

  /** A value whose trim is `*` parses to the single wildcard entry. */
  lemma ParseListSpacedStar(raw: string)
    requires Trim(raw) == "*"
    ensures ParseList(raw) == ["*"]
  {
    SpacedStarCommaFree(raw);
    SplitFree(raw, ",");
  }

  /** The empty value parses to the empty list. */
  lemma ParseListEmpty(raw: string)
    requires |raw| == 0
    ensures ParseList(raw) == []
  {
    SplitFree(raw, ",");
    ParseListBlank(raw);
  }

  /**
   * The origin allowlist (index.js:14-18): exactly `*` gives the wildcard
   * list, anything else is split, trimmed and filtered.
   */
  function ParseOrigins(raw: string): (r: seq<string>)
    ensures raw == "*" ==> r == ["*"]
    ensures forall i :: 0 <= i < |r| ==> IsEntry(r[i])
  {
    if raw == "*" then ["*"] else ParseList(raw)
  }

  /**
   * The IP allowlist (index.js:42-48): empty stays empty, a value whose trim
   * is `*` gives the wildcard list, anything else is split, trimmed and
   * filtered.
   */
  function ParseIps(raw: string): (r: seq<string>)
    ensures raw == "" ==> r == []
    ensures Trim(raw) == "*" ==> r == ["*"]
    ensures forall i :: 0 <= i < |r| ==> IsEntry(r[i])
  {
    if raw != "" then
      if Trim(raw) == "*" then ["*"] else ParseList(raw)
    else []
  }

  /**
   * The `'*'` test on the origin value is untrimmed, but it changes nothing:
   * splitting, trimming and filtering `*` also gives `['*']`, and a padded
   * ` * ` gives it too.
   */
  lemma OriginsAreParsedList(raw: string)
    ensures ParseOrigins(raw) == ParseList(raw)
  {
    if raw == "*" {
      ParseListSpacedStar(raw);
    }
  }

  /** Likewise, both special cases of the IP value agree with plain list parsing. */
  lemma IpsAreParsedList(raw: string)
    ensures ParseIps(raw) == ParseList(raw)
  {
    if raw == "" {
      ParseListEmpty(raw);
    } else if Trim(raw) == "*" {
      ParseListSpacedStar(raw);
    }
  }

  /**
   * A value made only of whitespace and commas passes the non-empty test
   * but yields no entry, so it leaves the IP gate switched off.
   */
  lemma BlankIpsParseEmpty(raw: string)
    requires forall i :: 0 <= i < |raw| ==> raw[i] == ',' || IsSpace(raw[i])
    ensures ParseIps(raw) == []
  {
    IpsAreParsedList(raw);
    TokensOfBlank(raw);
    ParseListBlank(raw);
  }

  /** The tokens of a value of whitespace and commas are whitespace only. */
  lemma {:induction false} TokensOfBlank(raw: string)
    requires forall i :: 0 <= i < |raw| ==> raw[i] == ',' || IsSpace(raw[i])
    ensures forall j :: 0 <= j < |Split(raw, ",")| ==> AllSpace(Split(raw, ",")[j])
    decreases |raw|
  {
    match IndexOf(raw, ",")
    case None =>
      forall i | 0 <= i < |raw| ensures IsSpace(raw[i]) {
        assert !OccursAt(raw, ",", i);
        assert raw[i..i + 1] == [raw[i]];
      }
    case Some(i) =>
      var rest := raw[i + 1..];
      forall m | 0 <= m < |rest| ensures rest[m] == ',' || IsSpace(rest[m]) {
        assert rest[m] == raw[i + 1 + m];
      }
      TokensOfBlank(rest);
      forall m | 0 <= m < i ensures IsSpace(raw[m]) {
        assert !OccursAt(raw, ",", m);
        assert raw[m..m + 1] == [raw[m]];
      }
      assert Split(raw, ",") == [raw[..i]] + Split(rest, ",");
  }
}
