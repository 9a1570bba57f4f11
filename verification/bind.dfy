/** The Bind ERP request URL: `build_url` (main.py:120-129) appends the
    account's OData filter to the invoices endpoint. */
module Bind {
  import opened Values
  import opened Text

  const FilterPrefix: string := "$filter="

  /** The filter as it is sent: trimmed, without a leading `?`, and with
      `$filter=` put in front unless it already starts with it in any case. */
  function CleanFilter(f: string): (c: string)
    ensures StartsWith(Lower(c), FilterPrefix)
  {
    Prefixed(Unquestion(Strip(f)))
  }

  /** A leading `?` removed. */
  function Unquestion(t: string): (u: string)
    ensures u == t || (t != [] && t[0] == '?' && u == t[1..])
    ensures u == [] || t[0] != '?' || u == t[1..]
  {
    if StartsWith(t, "?") then t[1..] else t
  }

  /** `$filter=` put in front unless the text already starts with it in any case. */
  function Prefixed(u: string): (c: string)
    ensures StartsWith(Lower(c), FilterPrefix)
    ensures c == u || c == FilterPrefix + u
    ensures StartsWith(Lower(u), FilterPrefix) ==> c == u
  {
    if StartsWith(Lower(u), FilterPrefix) then u
    else
      assert Lower(FilterPrefix + u)[..8] == FilterPrefix;
      FilterPrefix + u
  }

  /** `build_url(base, filtro)`: an absent or empty filter leaves the base as
      it is; otherwise the cleaned filter follows `&` when the base already
      has a query and `?` when it has none. */
  function BuildUrl(base: string, filter: Option<string>): string
  {
    if filter == None || filter.value == "" then base
    else base + (if Contains(base, "?") then "&" else "?") + CleanFilter(filter.value)
  }

  /** The cleaned filter starts with `$` and does not end in whitespace. */
  lemma PrefixedEnds(u: string)
    requires u == [] || !IsSpace(u[|u| - 1])
    ensures var c := Prefixed(u); c != [] && c[0] == '$' && !IsSpace(c[|c| - 1])
  {
    var c := Prefixed(u);
    assert LowerChar(c[0]) == '$';
  }

  /** Cleaning an already clean filter changes nothing. */
  lemma CleanFilterIdempotent(f: string)
    ensures CleanFilter(CleanFilter(f)) == CleanFilter(f)
  {
    var t := Strip(f);
    StripShape(f);
    var u := Unquestion(t);
    assert u == [] || u[|u| - 1] == t[|t| - 1];
    PrefixedEnds(u);
    var c := CleanFilter(f);
    StripNoop(c);
    assert Unquestion(c) == c;
  }

  /** The URL starts with the base; with a filter, exactly one separator and
      the cleaned filter follow it, and the URL has a query. */
  lemma BuildUrlShape(base: string, filter: Option<string>)
    ensures StartsWith(BuildUrl(base, filter), base)
    ensures filter == None || filter == Some("") ==> BuildUrl(base, filter) == base
    ensures forall f :: filter == Some(f) && f != "" ==>
      var url := BuildUrl(base, filter);
      && |url| == |base| + 1 + |CleanFilter(f)|
      && url[|base|] == (if Contains(base, "?") then '&' else '?')
      && url[|base| + 1..] == CleanFilter(f)
      && Contains(url, "?")
  {
    var url := BuildUrl(base, filter);
    assert url[..|base|] == base;
    if filter.Some? && filter.value != "" {
      var f := filter.value;
      if Contains(base, "?") {
        var i :| 0 <= i <= |base| - 1 && StartsWith(base[i..], "?");
        assert url[i..][..1] == base[i..][..1];
      } else {
        assert StartsWith(url[|base|..], "?");
      }
    }
  }
}
