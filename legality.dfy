/** Input validation of metric names, label names and label values
    (`prometheus_string_legal_name` and `prometheus_string_legal_value`).
    A C string that may be NULL is an `Option<string>`; `isalnum` is taken
    in the "C" locale, that is ASCII letters and digits. */
module Legality {
  import opened Wrappers

  predicate IsAlnum(c: char)
  {
    ('a' <= c <= 'z') || ('A' <= c <= 'Z') || ('0' <= c <= '9')
  }

  /** A string is a legal name when it exists and each of its characters is
      alphanumeric or `_`; the empty string is legal. */
  predicate IsLegalName(str: Option<string>)
  {
    str.Some? && forall k :: 0 <= k < |str.value| ==> IsAlnum(str.value[k]) || str.value[k] == '_'
  }

  /** A string is a legal value when it exists and holds no `"`. */
  predicate IsLegalValue(str: Option<string>)
  {
    str.Some? && forall k :: 0 <= k < |str.value| ==> str.value[k] != '"'
  }

  /** The character loop of `prometheus_string_legal_name`. */
  method LegalName(str: Option<string>) returns (legal: bool)
    ensures legal <==> IsLegalName(str)
  {
    if str.None? {
      return false;
    }
    var s := str.value;
    var k := 0;
    while k < |s|
      invariant 0 <= k <= |s|
      invariant forall j :: 0 <= j < k ==> IsAlnum(s[j]) || s[j] == '_'
    {
      if !IsAlnum(s[k]) && s[k] != '_' {
        return false;
      }
      k := k + 1;
    }
    return true;
  }

  /** The character loop of `prometheus_string_legal_value`. */
  method LegalValue(str: Option<string>) returns (legal: bool)
    ensures legal <==> IsLegalValue(str)
  {
    if str.None? {
      return false;
    }
    var s := str.value;
    var k := 0;
    while k < |s|
      invariant 0 <= k <= |s|
      invariant forall j :: 0 <= j < k ==> s[j] != '"'
    {
      if s[k] == '"' {
        return false;
      }
      k := k + 1;
    }
    return true;
  }

  /** Every label of a series has a legal name and a legal value. */
  predicate LabelsLegal(names: seq<Option<string>>, values: seq<Option<string>>)
    requires |names| == |values|
  {
    forall k :: 0 <= k < |names| ==> IsLegalName(names[k]) && IsLegalValue(values[k])
  }

  /** The validation loop at the top of each `*_add_series`: the name of label
      `k`, then its value, for `k` from 0; the first illegal one fails. */
  method LegalLabels(names: seq<Option<string>>, values: seq<Option<string>>) returns (legal: bool)
    requires |names| == |values|
    ensures legal <==> LabelsLegal(names, values)
  {
    var k := 0;
    while k < |names|
      invariant 0 <= k <= |names|
      invariant forall j :: 0 <= j < k ==> IsLegalName(names[j]) && IsLegalValue(values[j])
    {
      var okName := LegalName(names[k]);
      if !okName {
        return false;
      }
      var okValue := LegalValue(values[k]);
      if !okValue {
        return false;
      }
      k := k + 1;
    }
    return true;
  }

  /** Examples: a name with a blank or `!` is refused, a value with a quote is
      refused, an empty name is accepted, NULL is refused. */
  lemma LegalityExamples()
    ensures !IsLegalName(Some("bad name!"))
    ensures IsLegalName(Some("test_counter1")) && IsLegalName(Some(""))
    ensures !IsLegalName(None) && !IsLegalValue(None)
    ensures !IsLegalValue(Some("has\"quote")) && IsLegalValue(Some("a b!"))
  {
    assert "bad name!"[3] == ' ';
    assert "has\"quote"[3] == '"';
  }
}
