/** One synchronisation run, `_traer_facturas_por_empresas` (main.py:209-253):
    the accounts selected from the configuration sheet, their downloads, the
    optional push of each download to its destination sheet, and the
    per-account summary it returns. */
module Accounts {
  import opened Values
  import opened Text
  import opened Dicts
  import opened Rules
  import opened Sheets
  import opened Reconcile

  /** A configuration row: column title to the cell's display text, or to
      its value when it has none. */
  type ConfigRow = map<string, Value>

  // ---------------------------------------------------------------------------
  // Account selection (main.py:215-238)

  const DefaultApiUrl: string := "https://api.bind.com.mx/api/Invoices"

  /** What the run keeps of a selected row: the name it reports under, the
      request parameters and the push parameters. */
  datatype Account = Account(name: Value, baseUrl: string, token: Value, filter: string,
                             destSheet: Value, rules: Value)

  /** A row is skipped, selected, or makes the whole run raise (a number
      where `.strip()` or `.lower()` is called). */
  datatype RowOutcome = Skipped | Selected(account: Account) | RowRaises

  /** The endpoint's last segment spelt `Invoices`: a base ending in
      `/invoices` in any case has its last eight characters replaced. */
  function FixSuffix(url: string): (a: string)
    ensures |a| == |url|
  {
    if EndsWith(Lower(url), "/invoices") then url[..|url| - 8] + "Invoices" else url
  }

  /** The base URL normalisation of main.py:228-231: the suffix spelling, then
      `/v1/` replaced by `/api/` when the URL has no `/api/`. */
  function NormalizeBaseUrl(url: string): string
  {
    var a := FixSuffix(url);
    if Contains(a, "/v1/") && !Contains(a, "/api/") then ReplaceAll(a, "/v1/", "/api/") else a
  }

  /** One configuration row under the optional `ID` filter. */
  function SelectRow(row: ConfigRow, idFilter: Option<string>): RowOutcome
  {
    if idFilter.Some? && idFilter.value != "" && Get(row, "ID") != Str(idFilter.value) then Skipped
    else
      var token := Get(row, "API Token");
      var url := Or(Get(row, "API URL"), Str(DefaultApiUrl));
      var filter := Or(Get(row, "Filtro"), Str(""));
      var name := Or(Get(row, "Cliente"), Str("ID-" + ToText(Get(row, "ID"))));
      if !filter.Str? then RowRaises
      else if !Truthy(token) then Skipped
      else if !url.Str? then RowRaises
      else Selected(Account(name, NormalizeBaseUrl(url.s), token, Strip(filter.s),
                            Get(row, "Hoja destino ID"), Get(row, "Reglas JSON")))
  }

  /** The outcome of every configuration row. */
  function Outcomes(cfg: seq<ConfigRow>, idFilter: Option<string>): (o: seq<RowOutcome>)
    ensures |o| == |cfg|
  {
    seq(|cfg|, i requires 0 <= i < |cfg| => SelectRow(cfg[i], idFilter))
  }

  /** The accounts of the selected rows, in row order; `None` once a row raises. */
  function Gather(outcomes: seq<RowOutcome>): Option<seq<Account>>
  {
    if outcomes == [] then Some([])
    else GatherStep(Gather(outcomes[..|outcomes| - 1]), outcomes[|outcomes| - 1])
  }

  function GatherStep(acc: Option<seq<Account>>, o: RowOutcome): Option<seq<Account>>
  {
    match acc
    case None => None
    case Some(accounts) =>
      match o
      case RowRaises => None
      case Skipped => Some(accounts)
      case Selected(a) => Some(accounts + [a])
  }

  /** The accounts the run downloads for. */
  function Selection(cfg: seq<ConfigRow>, idFilter: Option<string>): Option<seq<Account>>
  {
    Gather(Outcomes(cfg, idFilter))
  }

  /** The selection loop of main.py:215-238. */
  method SelectAccounts(cfg: seq<ConfigRow>, idFilter: Option<string>) returns (r: Option<seq<Account>>)
    ensures r == Selection(cfg, idFilter)
  {
    ghost var outcomes := Outcomes(cfg, idFilter);
    var accounts: seq<Account> := [];
    for k := 0 to |cfg|
      invariant Gather(outcomes[..k]) == Some(accounts)
    {
      GatherPrefix(outcomes, k);
      var outcome := SelectRow(cfg[k], idFilter);
      assert outcome == outcomes[k];
      match outcome
      case RowRaises =>
        GatherRaisesLater(outcomes, k + 1);
        return None;
      case Skipped =>
      case Selected(account) =>
        accounts := accounts + [account];
    }
    assert outcomes[..|cfg|] == outcomes;
    return Some(accounts);
  }

  /** One more outcome takes one more gathering step. */
  lemma GatherPrefix(outcomes: seq<RowOutcome>, k: nat)
    requires k < |outcomes|
    ensures Gather(outcomes[..k + 1]) == GatherStep(Gather(outcomes[..k]), outcomes[k])
  {
    assert outcomes[..k + 1][..k] == outcomes[..k];
  }

  /** Once a prefix raises, the whole selection raises. */
  lemma {:induction false} GatherRaisesLater(outcomes: seq<RowOutcome>, k: nat)
    requires k <= |outcomes| && Gather(outcomes[..k]).None?
    ensures Gather(outcomes).None?
  {
    if k < |outcomes| {
      var n := |outcomes| - 1;
      assert outcomes[..n][..k] == outcomes[..k];
      GatherRaisesLater(outcomes[..n], k);
    } else {
      assert outcomes[..k] == outcomes;
    }
  }

  /** Gathering raises exactly when some outcome raises; otherwise it keeps
      exactly the selected accounts. */
  lemma {:induction false} GatherSpec(outcomes: seq<RowOutcome>)
    ensures Gather(outcomes).None? <==> exists i :: 0 <= i < |outcomes| && outcomes[i] == RowRaises
    ensures Gather(outcomes).Some? ==>
      var accounts := Gather(outcomes).value;
      && (forall k :: 0 <= k < |accounts| ==> exists i :: 0 <= i < |outcomes| && outcomes[i] == Selected(accounts[k]))
      && (forall i :: 0 <= i < |outcomes| && outcomes[i].Selected? ==> outcomes[i].account in accounts)
  {
    if outcomes != [] {
      var n := |outcomes| - 1;
      var init := outcomes[..n];
      GatherSpec(init);
      assert forall i :: 0 <= i < n ==> init[i] == outcomes[i];
      if Gather(init).None? {
        var i :| 0 <= i < n && init[i] == RowRaises;
        assert outcomes[i] == RowRaises;
      }
    }
  }

  /** The selection raises exactly when some row raises; otherwise the
      accounts are exactly those of the selected rows. */
  lemma SelectionSpec(cfg: seq<ConfigRow>, idFilter: Option<string>)
    ensures Selection(cfg, idFilter).None? <==> exists i :: 0 <= i < |cfg| && SelectRow(cfg[i], idFilter) == RowRaises
    ensures Selection(cfg, idFilter).Some? ==>
      var accounts := Selection(cfg, idFilter).value;
      && (forall k :: 0 <= k < |accounts| ==> exists i :: 0 <= i < |cfg| && SelectRow(cfg[i], idFilter) == Selected(accounts[k]))
      && (forall i :: 0 <= i < |cfg| && SelectRow(cfg[i], idFilter).Selected? ==> SelectRow(cfg[i], idFilter).account in accounts)
  {
    var outcomes := Outcomes(cfg, idFilter);
    GatherSpec(outcomes);
    assert forall i :: 0 <= i < |cfg| ==> outcomes[i] == SelectRow(cfg[i], idFilter);
  }

  /** What a selected row satisfies: it passes the `ID` filter, has a token,
      and its account carries the trimmed filter, the normalised URL (the
      default endpoint when the row has none) and the row's name, push
      target and rules. */
  lemma SelectedRow(row: ConfigRow, idFilter: Option<string>)
    requires SelectRow(row, idFilter).Selected?
    ensures var a := SelectRow(row, idFilter).account;
      && (idFilter == None || idFilter == Some("") || Get(row, "ID") == Str(idFilter.value))
      && Truthy(a.token) && a.token == Get(row, "API Token")
      && (!Truthy(Get(row, "API URL")) ==> a.baseUrl == NormalizeBaseUrl(DefaultApiUrl))
      && (forall u :: Get(row, "API URL") == Str(u) && u != "" ==> a.baseUrl == NormalizeBaseUrl(u))
      && (forall f :: Get(row, "Filtro") == Str(f) ==> a.filter == Strip(f))
      && (!Truthy(Get(row, "Filtro")) ==> a.filter == "")
      && (Truthy(Get(row, "Cliente")) ==> a.name == Get(row, "Cliente"))
      && (!Truthy(Get(row, "Cliente")) ==> a.name == Str("ID-" + ToText(Get(row, "ID"))))
      && a.destSheet == Get(row, "Hoja destino ID") && a.rules == Get(row, "Reglas JSON")
  {
    assert Strip("") == "";
  }

  /** A row that fails the `ID` filter is skipped whatever it holds, and a row
      without a token is never selected. */
  lemma UnselectedRows(row: ConfigRow, idFilter: Option<string>)
    ensures idFilter.Some? && idFilter.value != "" && Get(row, "ID") != Str(idFilter.value) ==>
      SelectRow(row, idFilter) == Skipped
    ensures !Truthy(Get(row, "API Token")) ==> !SelectRow(row, idFilter).Selected?
  {
  }

  /** A row makes the run raise exactly when it passes the `ID` filter and
      has a number as filter, or has a token and a number as URL. */
  lemma RaisingRows(row: ConfigRow, idFilter: Option<string>)
    ensures SelectRow(row, idFilter) == RowRaises <==>
      && (idFilter == None || idFilter == Some("") || Get(row, "ID") == Str(idFilter.value))
      && ((Truthy(Get(row, "Filtro")) && !Get(row, "Filtro").Str?) ||
          (Truthy(Get(row, "API Token")) && Truthy(Get(row, "API URL")) && !Get(row, "API URL").Str?))
  {
  }

  /** An absent and an empty `ID` filter both select every row. */
  lemma EmptyIdSelectsAll(cfg: seq<ConfigRow>)
    ensures Selection(cfg, None) == Selection(cfg, Some(""))
  {
    var all, empty := Outcomes(cfg, None), Outcomes(cfg, Some(""));
    forall i | 0 <= i < |cfg| ensures all[i] == empty[i] {
      assert all[i] == SelectRow(cfg[i], None) && empty[i] == SelectRow(cfg[i], Some(""));
    }
    assert all == empty;
  }

  /** Every selected account has a token. */
  lemma SelectedHaveTokens(cfg: seq<ConfigRow>, idFilter: Option<string>)
    requires Selection(cfg, idFilter).Some?
    ensures forall a :: a in Selection(cfg, idFilter).value ==> Truthy(a.token)
  {
    var accounts := Selection(cfg, idFilter).value;
    SelectionSpec(cfg, idFilter);
    forall a | a in accounts ensures Truthy(a.token) {
      var k :| 0 <= k < |accounts| && accounts[k] == a;
      var i :| 0 <= i < |cfg| && SelectRow(cfg[i], idFilter) == Selected(a);
      SelectedRow(cfg[i], idFilter);
    }
  }

  // ---------------------------------------------------------------------------
  // Base URL normalisation (main.py:228-231)

  /** Fixing the suffix changes letter case only. */
  lemma FixSuffixCase(url: string)
    ensures Lower(FixSuffix(url)) == Lower(url)
  {
    var a := FixSuffix(url);
    var n := |url|;
    if EndsWith(Lower(url), "/invoices") {
      forall i | n - 8 <= i < n ensures Lower(a)[i] == Lower(url)[i] {
        assert Lower(url)[i] == Lower(url)[n - 9..][i - (n - 9)];
        assert a[i] == "Invoices"[i - (n - 8)];
      }
      assert forall i :: 0 <= i < n - 8 ==> a[i] == url[i];
    }
  }

  /** A URL ending in `/invoices` in any case ends in `/Invoices` once fixed. */
  lemma FixSuffixEnds(url: string)
    requires EndsWith(Lower(url), "/invoices")
    ensures EndsWith(FixSuffix(url), "/Invoices")
  {
    SlashBeforeSuffix(url);
    RespelledEnds(url);
  }

  /** Respelling the last eight characters after a `/` gives `/Invoices`. */
  lemma RespelledEnds(url: string)
    requires |url| >= 9 && url[|url| - 9] == '/'
    ensures EndsWith(url[..|url| - 8] + "Invoices", "/Invoices")
  {
    var n := |url|;
    var a := url[..n - 8] + "Invoices";
    forall j | n - 9 <= j < n ensures a[j] == "/Invoices"[j - (n - 9)] {
      if j == n - 9 {
        assert a[j] == url[n - 9];
      }
    }
  }

  /** A URL whose lower-case form ends in `/invoices` has its `/` in place. */
  lemma SlashBeforeSuffix(url: string)
    requires EndsWith(Lower(url), "/invoices")
    ensures url[|url| - 9] == '/'
  {
    var n := |url|;
    var low := Lower(url);
    assert low[n - 9] == low[n - 9..][0] == '/';
    assert LowerChar(url[n - 9]) == '/';
  }

  /** Fixing the suffix changes letter case only, leaves the URL ending in
      `/Invoices` when it ended in `/invoices` in any case, and is idempotent. */
  lemma FixSuffixSpec(url: string)
    ensures Lower(FixSuffix(url)) == Lower(url)
    ensures EndsWith(Lower(url), "/invoices") ==> EndsWith(FixSuffix(url), "/Invoices")
    ensures FixSuffix(FixSuffix(url)) == FixSuffix(url)
  {
    FixSuffixCase(url);
    if EndsWith(Lower(url), "/invoices") {
      FixSuffixEnds(url);
      FixSuffixFixed(FixSuffix(url));
    }
  }

  /** A URL that already has `/api/` is only given its suffix spelling. */
  lemma NormalizeKeepsApiUrls(url: string)
    requires Contains(url, "/api/")
    ensures NormalizeBaseUrl(url) == FixSuffix(url)
  {
    FixSuffixKeepsApi(url);
  }

  /** The suffix fix does not touch an `/api/` segment. */
  lemma FixSuffixKeepsApi(url: string)
    requires Contains(url, "/api/")
    ensures Contains(FixSuffix(url), "/api/")
  {
    var a := FixSuffix(url);
    var i :| 0 <= i <= |url| - 5 && StartsWith(url[i..], "/api/");
    forall j | 0 <= j < 5 ensures url[i + j] == "/api/"[j] {
      assert url[i + j] == url[i..][..5][j];
    }
    FixSuffixKeepsSlash(url, i + 4);
    assert a[i..][..5] == "/api/";
  }

  /** A `/` of the URL lies before the part the suffix fix rewrites. */
  lemma FixSuffixKeepsSlash(url: string, k: int)
    requires 0 <= k < |url| && url[k] == '/'
    ensures forall j :: 0 <= j <= k ==> FixSuffix(url)[j] == url[j]
  {
    var n := |url|;
    if EndsWith(Lower(url), "/invoices") {
      assert Lower(url)[n - 9..] == "/invoices";
      assert Lower(url)[k] == '/';
      assert k < n - 8 by {
        assert forall j :: n - 8 <= j < n ==> Lower(url)[j] == "/invoices"[j - (n - 9)] != '/';
      }
    }
  }

  /** A URL already ending in `/Invoices` keeps its suffix. */
  lemma FixSuffixFixed(url: string)
    requires EndsWith(url, "/Invoices")
    ensures FixSuffix(url) == url
  {
    var n := |url|;
    var low := Lower(url);
    forall j | n - 9 <= j < n ensures low[j] == "/invoices"[j - (n - 9)] {
      assert url[j] == url[n - 9..][j - (n - 9)];
    }
    assert low[n - 9..] == "/invoices";
    assert url[n - 8..] == "Invoices" by {
      assert url[n - 8..] == url[n - 9..][1..];
    }
    assert url[..n - 8] + url[n - 8..] == url;
  }

  /** The `/api/Invoices` endpoint of any host is already normal. */
  lemma ApiEndpointIsNormal(host: string)
    ensures NormalizeBaseUrl(host + "/api/Invoices") == host + "/api/Invoices"
  {
    var url := host + "/api/Invoices";
    var k := |host|;
    assert url[k..] == "/api/Invoices";
    assert StartsWith(url[k..], "/api/") by {
      assert url[k..][..5] == "/api/Invoices"[..5];
    }
    NormalizeKeepsApiUrls(url);
    assert url[|url| - 9..] == "/api/Invoices"[4..];
    FixSuffixFixed(url);
  }

  /** The default endpoint is already normal. */
  lemma DefaultUrlIsNormal()
    ensures NormalizeBaseUrl(DefaultApiUrl) == DefaultApiUrl
  {
    assert DefaultApiUrl == "https://api.bind.com.mx" + "/api/Invoices";
    ApiEndpointIsNormal("https://api.bind.com.mx");
  }

  // ---------------------------------------------------------------------------
  // Downloads, pushes and the summary (main.py:240-253)

  /** What `bind_get_all` gave for one account: the invoices of every page,
      or an exception (kept by `gather(..., return_exceptions=True)`). */
  datatype FetchOutcome = Fetched(invoices: seq<Invoice>) | FetchFailed

  /** One entry of the returned dictionary: `{"count": n}` or the exception. */
  datatype Summary = Count(n: nat) | Failure

  function SummaryOf(f: FetchOutcome): (s: Summary)
    ensures s.Count? <==> f.Fetched?
    ensures f.Fetched? ==> s.n == |f.invoices|
  {
    match f
    case Fetched(invoices) => Count(|invoices|)
    case FetchFailed => Failure
  }

  /** The dictionary comprehension of main.py:253: name to summary, in
      account order, a later account with the same name replacing an earlier one. */
  function Summaries(accounts: seq<Account>, fetch: Account -> FetchOutcome): map<Value, Summary>
  {
    Indexed(SummaryEntries(accounts, fetch))
  }

  function SummaryEntries(accounts: seq<Account>, fetch: Account -> FetchOutcome): (e: seq<(Option<Value>, Summary)>)
    ensures |e| == |accounts|
    ensures forall i :: 0 <= i < |accounts| ==> e[i] == (Some(accounts[i].name), SummaryOf(fetch(accounts[i])))
  {
    seq(|accounts|, i requires 0 <= i < |accounts| => (Some(accounts[i].name), SummaryOf(fetch(accounts[i]))))
  }

  /** Every name is reported, and the report of a name is the outcome of
      the last account with that name; in particular a failed download is
      reported as a failure under its own name whatever the other accounts
      give, and a name used once reports its own account. */
  lemma SummariesSpec(accounts: seq<Account>, fetch: Account -> FetchOutcome, name: Value)
    ensures name in Summaries(accounts, fetch) <==> exists i :: 0 <= i < |accounts| && accounts[i].name == name
    ensures name in Summaries(accounts, fetch) ==>
      exists i :: 0 <= i < |accounts| && accounts[i].name == name &&
        Summaries(accounts, fetch)[name] == SummaryOf(fetch(accounts[i])) &&
        forall j :: i < j < |accounts| ==> accounts[j].name != name
  {
    var entries := SummaryEntries(accounts, fetch);
    IndexedKeys(entries, name);
    if name in Summaries(accounts, fetch) {
      IndexedLastWins(entries, name);
      var i :| LastEntry(entries, name, i) && Indexed(entries)[name] == entries[i].1;
      assert forall j :: i < j < |accounts| ==> accounts[j].name != name by {
        forall j | i < j < |accounts| ensures accounts[j].name != name {
          assert entries[j].0 != Some(name);
        }
      }
    }
  }

  /** A failure of one account does not hide the others: an account whose
      name no other account uses is reported from its own download alone. */
  lemma FailureIsolation(accounts: seq<Account>, fetch: Account -> FetchOutcome, i: int)
    requires 0 <= i < |accounts|
    requires forall j :: 0 <= j < |accounts| && j != i ==> accounts[j].name != accounts[i].name
    ensures accounts[i].name in Summaries(accounts, fetch)
    ensures Summaries(accounts, fetch)[accounts[i].name] == SummaryOf(fetch(accounts[i]))
  {
    SummariesSpec(accounts, fetch, accounts[i].name);
  }

  /** The pushes of main.py:244-251, in account order: a failed download and
      an account without destination sheet are passed over, and a push that
      raises ends the run (it is the last one). `sheets` opens a destination
      by the id in the configuration (`None` when it cannot be opened). */
  function Pushes(accounts: seq<Account>, fetch: Account -> FetchOutcome, sheets: Value -> Option<Sheet>,
                  parse: string -> Option<Json>): seq<PushOutcome>
  {
    if accounts == [] then []
    else
      var a := accounts[0];
      var rest := Pushes(accounts[1..], fetch, sheets, parse);
      match fetch(a)
      case FetchFailed => rest
      case Fetched(invoices) =>
        if !Truthy(a.destSheet) then rest
        else
          var o := Push(sheets(a.destSheet), invoices, a.rules, parse);
          if o.Raised? then [o] else [o] + rest
  }

  /** The push loop. */
  method RunPushes(accounts: seq<Account>, fetch: Account -> FetchOutcome, sheets: Value -> Option<Sheet>,
                   parse: string -> Option<Json>) returns (done: seq<PushOutcome>)
    ensures done == Pushes(accounts, fetch, sheets, parse)
  {
    done := [];
    var i := 0;
    var raised := false;
    while i < |accounts| && !raised
      invariant 0 <= i <= |accounts|
      invariant !raised ==> done + Pushes(accounts[i..], fetch, sheets, parse) == Pushes(accounts, fetch, sheets, parse)
      invariant raised ==> done == Pushes(accounts, fetch, sheets, parse)
    {
      var a := accounts[i];
      ghost var before := done;
      assert accounts[i..][1..] == accounts[i + 1..];
      var outcome := fetch(a);
      if outcome.Fetched? && Truthy(a.destSheet) {
        var o := PushToSheet(sheets(a.destSheet), outcome.invoices, a.rules, parse);
        done := done + [o];
        if o.Raised? {
          raised := true;
        }
      }
      i := i + 1;
    }
    if !raised {
      assert accounts[i..] == [];
    }
  }

  /** Only the last push can be one that raised, and there is at most one
      push per account. */
  lemma {:induction false} PushesSpec(accounts: seq<Account>, fetch: Account -> FetchOutcome,
                                      sheets: Value -> Option<Sheet>, parse: string -> Option<Json>)
    ensures var p := Pushes(accounts, fetch, sheets, parse);
      |p| <= |accounts| && forall k :: 0 <= k < |p| - 1 ==> !p[k].Raised?
  {
    if accounts != [] {
      PushesSpec(accounts[1..], fetch, sheets, parse);
    }
  }

  /** When no push raises, every account with a download and a destination
      sheet is pushed, in order, with its own invoices and rules. */
  lemma {:induction false} PushesComplete(accounts: seq<Account>, fetch: Account -> FetchOutcome,
                                          sheets: Value -> Option<Sheet>, parse: string -> Option<Json>)
    requires forall k :: 0 <= k < |Pushes(accounts, fetch, sheets, parse)| ==> !Pushes(accounts, fetch, sheets, parse)[k].Raised?
    ensures Pushes(accounts, fetch, sheets, parse) == PushesOf(accounts, fetch, sheets, parse)
  {
    if accounts != [] {
      var p := Pushes(accounts, fetch, sheets, parse);
      var rest := Pushes(accounts[1..], fetch, sheets, parse);
      var a := accounts[0];
      if fetch(a).Fetched? && Truthy(a.destSheet) {
        assert p == [p[0]] + rest;
        assert forall k :: 0 <= k < |rest| ==> rest[k] == p[k + 1];
      }
      PushesComplete(accounts[1..], fetch, sheets, parse);
    }
  }

  /** The push of every account that has a download and a destination sheet. */
  function PushesOf(accounts: seq<Account>, fetch: Account -> FetchOutcome, sheets: Value -> Option<Sheet>,
                    parse: string -> Option<Json>): seq<PushOutcome>
  {
    if accounts == [] then []
    else
      var a := accounts[0];
      var rest := PushesOf(accounts[1..], fetch, sheets, parse);
      if fetch(a).Fetched? && Truthy(a.destSheet) then
        [Push(sheets(a.destSheet), fetch(a).invoices, a.rules, parse)] + rest
      else rest
  }

  // ---------------------------------------------------------------------------
  // The whole run

  /** How a run ends: the configuration raises, a push raises (after the
      pushes listed), or the summary is returned. */
  datatype SyncResult =
    | ConfigRaised
    | PushRaised(pushes: seq<PushOutcome>)
    | Synced(pushes: seq<PushOutcome>, summary: map<Value, Summary>)

  /** `_traer_facturas_por_empresas(id_fila=idFilter, push_mode=pushMode)`. */
  function Sync(cfg: seq<ConfigRow>, idFilter: Option<string>, pushMode: bool, fetch: Account -> FetchOutcome,
                sheets: Value -> Option<Sheet>, parse: string -> Option<Json>): SyncResult
  {
    match Selection(cfg, idFilter)
    case None => ConfigRaised
    case Some(accounts) =>
      var pushes := if pushMode then Pushes(accounts, fetch, sheets, parse) else [];
      if pushes != [] && pushes[|pushes| - 1].Raised? then PushRaised(pushes)
      else Synced(pushes, Summaries(accounts, fetch))
  }

  /** A run that returns reports every selected account, and pushes each
      account with a download and a destination sheet (none without push mode). */
  lemma SyncSpec(cfg: seq<ConfigRow>, idFilter: Option<string>, pushMode: bool, fetch: Account -> FetchOutcome,
                 sheets: Value -> Option<Sheet>, parse: string -> Option<Json>)
    ensures Sync(cfg, idFilter, pushMode, fetch, sheets, parse).ConfigRaised? <==> Selection(cfg, idFilter).None?
    ensures !pushMode ==> !Sync(cfg, idFilter, pushMode, fetch, sheets, parse).PushRaised?
    ensures Sync(cfg, idFilter, pushMode, fetch, sheets, parse).Synced? ==>
      var accounts := Selection(cfg, idFilter).value;
      var r := Sync(cfg, idFilter, pushMode, fetch, sheets, parse);
      && r.summary == Summaries(accounts, fetch)
      && r.pushes == (if pushMode then PushesOf(accounts, fetch, sheets, parse) else [])
  {
    var r := Sync(cfg, idFilter, pushMode, fetch, sheets, parse);
    if r.Synced? && pushMode {
      var accounts := Selection(cfg, idFilter).value;
      PushesSpec(accounts, fetch, sheets, parse);
      PushesComplete(accounts, fetch, sheets, parse);
    }
  }
}
