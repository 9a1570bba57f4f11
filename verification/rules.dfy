/** The column-mapping rules of a destination sheet (main.py:269-282): which
    invoice field goes to which destination column, read from the account's
    "Reglas JSON" cell with a built-in default. */
module Rules {
  import opened Values
  import opened Text
  import opened Dicts

  /** A JSON document as `json.loads` returns it; an object is kept as its
      key/value pairs in text order, and Python builds the dictionary from
      them (`DictOf`). */
  datatype Json =
    | JNull
    | JBool(b: bool)
    | JNum(lit: string)
    | JStr(s: string)
    | JArr(items: seq<Json>)
    | JObj(pairs: seq<(string, Json)>)

  /** The digits and point of a JSON number, before any exponent. */
  function Mantissa(lit: string): string
  {
    if lit == [] || lit[0] == 'e' || lit[0] == 'E' then [] else [lit[0]] + Mantissa(lit[1..])
  }

  /** Python truthiness of a decoded JSON value; a number is zero exactly
      when its mantissa is (`0e5` decodes to `0.0`). */
  predicate JTruthy(j: Json)
  {
    match j
    case JNull => false
    case JBool(b) => b
    case JNum(lit) => var m := Mantissa(lit); exists i :: 0 <= i < |m| && IsNonZeroDigit(m[i])
    case JStr(s) => s != ""
    case JArr(items) => items != []
    case JObj(pairs) => pairs != []
  }

  /** The default rules: invoice field to destination column title. */
  const DefaultPairs: seq<(string, string)> := [
    ("UUID", "UUID"),
    ("Date", "Fecha emisi\U{F3}n"),
    ("RFC", "RFC Receptor"),
    ("Total", "Total"),
    ("CFDIUse", "Tipo CFDI")
  ]

  /** The default rules as the JSON object Python builds from them. */
  const DefaultRules: Json :=
    JObj(seq(|DefaultPairs|, i requires 0 <= i < |DefaultPairs| => (DefaultPairs[i].0, JStr(DefaultPairs[i].1))))

  /** `json.loads(text).get("map")` for a decoded document: `None` when the
      document is not an object (`.get` raises) or has no "map" key. */
  function MapMember(doc: Json): Option<Json>
  {
    match doc
    case JObj(pairs) => Lookup(DictOf(pairs), "map")
    case _ => None
  }

  /** The rules `_push_to_sheet` settles on (main.py:269-280). `parse` stands
      for `json.loads`: `None` when it raises. A falsy cell gives `{}`, which
      is falsy; a number makes `json.loads` raise. */
  function ResolveRules(cell: Value, parse: string -> Option<Json>): Json
  {
    if !Truthy(cell) || !cell.Str? then DefaultRules
    else match parse(cell.s)
      case None => DefaultRules
      case Some(doc) =>
        match MapMember(doc)
        case None => DefaultRules
        case Some(m) => if JTruthy(m) then m else DefaultRules
  }

  /** The default is used exactly when the cell is absent or empty, is not
      text, does not decode, decodes to something other than an object, has
      no "map" key, or has an empty (falsy) "map"; otherwise the rules are
      that "map", whichever of its duplicate keys comes last. */
  lemma ResolveRulesCases(cell: Value, parse: string -> Option<Json>)
    ensures var r := ResolveRules(cell, parse);
      (r == DefaultRules) || (cell.Str? && cell.s != "" && parse(cell.s).Some? && parse(cell.s).value.JObj?)
    ensures var r := ResolveRules(cell, parse);
      forall pairs :: cell.Str? && cell.s != "" && parse(cell.s) == Some(JObj(pairs)) ==>
        r == (match LastValue(pairs, "map")
              case Some(m) => if JTruthy(m) then m else DefaultRules
              case None => DefaultRules)
    ensures !Truthy(cell) || cell.Num? ==> ResolveRules(cell, parse) == DefaultRules
    ensures cell.Str? && parse(cell.s).None? ==> ResolveRules(cell, parse) == DefaultRules
  {
    if cell.Str? && cell.s != "" && parse(cell.s).Some? && parse(cell.s).value.JObj? {
      DictOfLookup(parse(cell.s).value.pairs, "map");
    }
  }

  /** A "map" whose number is zero with an exponent, such as `0e5`, is
      falsy, so the default rules are used. */
  lemma ZeroExponentMapIsDefault(cell: Value, parse: string -> Option<Json>)
    requires cell.Str? && cell.s != ""
    requires parse(cell.s) == Some(JObj([("map", JNum("0e5"))]))
    ensures ResolveRules(cell, parse) == DefaultRules
  {
    ResolveRulesCases(cell, parse);
    assert LastValue([("map", JNum("0e5"))], "map") == Some(JNum("0e5"));
    assert Mantissa("0e5") == "0";
  }

  /** `rules.items()` with every target passed through `_slug`
      (main.py:282): `None` when the rules are not a dictionary (`.items()`
      raises) or a target is not text (`_slug` raises). */
  function RuleList(rules: Json): (r: Option<seq<(string, string)>>)
    ensures r.Some? ==> rules.JObj? && |r.value| == |DictOf(rules.pairs)|
    ensures r.Some? ==> forall i :: 0 <= i < |r.value| ==>
      r.value[i].0 == DictOf(rules.pairs)[i].0 && DictOf(rules.pairs)[i].1 == JStr(r.value[i].1)
  {
    match rules
    case JObj(pairs) => TextTargets(DictOf(pairs))
    case _ => None
  }

  /** Each target of a dictionary as text, or `None` if one is not text. */
  function TextTargets(d: seq<(string, Json)>): (r: Option<seq<(string, string)>>)
    ensures r.Some? <==> forall i :: 0 <= i < |d| ==> d[i].1.JStr?
    ensures r.Some? ==> |r.value| == |d| && forall i :: 0 <= i < |d| ==> d[i] == (r.value[i].0, JStr(r.value[i].1))
  {
    if d == [] then Some([])
    else if !d[0].1.JStr? then None
    else match TextTargets(d[1..])
      case None => None
      case Some(rest) => Some([(d[0].0, d[0].1.s)] + rest)
  }

  /** A dictionary whose targets are all text gives exactly those texts. */
  lemma TextTargetsOfText(d: seq<(string, Json)>, p: seq<(string, string)>)
    requires |d| == |p| && forall i :: 0 <= i < |d| ==> d[i] == (p[i].0, JStr(p[i].1))
    ensures TextTargets(d) == Some(p)
  {
    assert TextTargets(d).Some?;
    var r := TextTargets(d).value;
    forall i | 0 <= i < |d| ensures r[i] == p[i] {
      assert d[i] == (r[i].0, JStr(r[i].1)) == (p[i].0, JStr(p[i].1));
    }
    assert r == p;
  }

  /** Keys that start with different characters are distinct. */
  lemma DistinctInitials<V>(d: seq<(string, V)>)
    requires forall i :: 0 <= i < |d| ==> d[i].0 != []
    requires forall i, j :: 0 <= i < j < |d| ==> d[i].0[0] != d[j].0[0]
    ensures DistinctKeys(d)
  {
    forall i, j | 0 <= i < j < |d| ensures d[i].0 != d[j].0 {
      assert d[i].0[0] != d[j].0[0];
    }
  }

  /** The default keys are distinct. */
  lemma DefaultKeysDistinct()
    ensures DistinctKeys(DefaultRules.pairs)
  {
    var initials := "UDRTC";
    assert forall i :: 0 <= i < 5 ==> DefaultPairs[i].0 != [] && DefaultPairs[i].0[0] == initials[i];
    DistinctInitials(DefaultRules.pairs);
  }

  /** The default rules are a dictionary of five text targets, in order. */
  lemma DefaultRuleList()
    ensures RuleList(DefaultRules) == Some(DefaultPairs)
  {
    var pairs := DefaultRules.pairs;
    DefaultKeysDistinct();
    DictOfDistinct(pairs);
    TextTargetsOfText(pairs, DefaultPairs);
  }
}
