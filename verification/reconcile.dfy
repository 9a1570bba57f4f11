/** The reconciliation engine of `_push_to_sheet` (main.py:259-345): the
    destination's identity columns, the two indexes of its rows (by UUID and
    by composite signature), the cells written for each invoice, and the
    split of the fetched invoices into inserts and updates. */
module Reconcile {
  import opened Values
  import opened Text
  import opened Dicts
  import opened Dates
  import opened Identity
  import opened Rules
  import opened Sheets

  // ---------------------------------------------------------------------------
  // Identity columns (main.py:282-290).

  /** `col_map.get(slug_rules.get(key, ""))`: the column the rule for `key`
      points at, looking up `""` when there is no such rule. */
  function RuleColumn(rules: seq<(string, string)>, index: map<string, Id>, key: string): Option<Id>
  {
    var slug := match Lookup(rules, key) case None => "" case Some(dst) => Slug(dst);
    ColumnFor(index, slug)
  }

  /** The UUID column and the four signature columns (date, RFC, total,
      CFDI use), each possibly missing. */
  datatype Layout = Layout(uuid: Option<Id>, sig: seq<Option<Id>>)

  function LayoutOf(rules: seq<(string, string)>, index: map<string, Id>): (l: Layout)
    ensures |l.sig| == 4
  {
    Layout(RuleColumn(rules, index, "UUID"),
      [RuleColumn(rules, index, "Date"), RuleColumn(rules, index, "RFC"),
       RuleColumn(rules, index, "Total"), RuleColumn(rules, index, "CFDIUse")])
  }

  /** A rule whose target slug is a column of the destination resolves to
      that column; a key without a rule, or a target that matches no
      column, resolves to nothing unless some column's title slugs to `""`. */
  lemma RuleColumnCases(rules: seq<(string, string)>, columns: seq<Column>, key: string)
    ensures forall dst :: Lookup(rules, key) == Some(dst) ==>
      (RuleColumn(rules, ColumnIndex(columns), key).Some? <==>
       exists i :: 0 <= i < |columns| && Key(columns[i]) == Slug(dst))
    ensures Lookup(rules, key).None? ==>
      (RuleColumn(rules, ColumnIndex(columns), key).Some? <==>
       exists i :: 0 <= i < |columns| && Key(columns[i]) == "")
  {
    match Lookup(rules, key)
    case None => ColumnIndexKeys(columns, "");
    case Some(dst) => ColumnIndexKeys(columns, Slug(dst));
  }

  // ---------------------------------------------------------------------------
  // Reading one destination row (main.py:297-305).

  /** The row's UUID: the last cell in the UUID column with a truthy value,
      converted to text and trimmed. */
  function RowUuid(cells: seq<Cell>, col: Option<Id>): Option<string>
  {
    if cells == [] then None
    else
      var c := cells[|cells| - 1];
      if col == Some(c.column) && Truthy(c.value) then Some(Strip(ToText(c.value)))
      else RowUuid(cells[..|cells| - 1], col)
  }

  /** The row's value in a signature column: `display_value or value` of the
      last cell in that column, `None` when there is none. */
  function SigValue(cells: seq<Cell>, col: Option<Id>): Value
  {
    if cells == [] then Null
    else
      var c := cells[|cells| - 1];
      if col == Some(c.column) then Or(OfDisplay(c.display), c.value)
      else SigValue(cells[..|cells| - 1], col)
  }

  lemma RowUuidStep(cells: seq<Cell>, k: int, col: Option<Id>)
    requires 0 <= k < |cells|
    ensures RowUuid(cells[..k + 1], col) ==
      if col == Some(cells[k].column) && Truthy(cells[k].value) then Some(Strip(ToText(cells[k].value)))
      else RowUuid(cells[..k], col)
  {
    assert cells[..k + 1][..k] == cells[..k];
  }

  lemma SigValueStep(cells: seq<Cell>, k: int, col: Option<Id>)
    requires 0 <= k < |cells|
    ensures SigValue(cells[..k + 1], col) ==
      if col == Some(cells[k].column) then Or(OfDisplay(cells[k].display), cells[k].value)
      else SigValue(cells[..k], col)
  {
    assert cells[..k + 1][..k] == cells[..k];
  }

  /** The scan over a row's cells that fills `row_uuid` and `sig_vals`. */
  method ScanRow(cells: seq<Cell>, layout: Layout) returns (rowUuid: Option<string>, sigVals: seq<Value>)
    requires |layout.sig| == 4
    ensures rowUuid == RowUuid(cells, layout.uuid)
    ensures |sigVals| == 4 && forall ix :: 0 <= ix < 4 ==> sigVals[ix] == SigValue(cells, layout.sig[ix])
  {
    sigVals := [Null, Null, Null, Null];
    rowUuid := None;
    var k := 0;
    while k < |cells|
      invariant 0 <= k <= |cells|
      invariant rowUuid == RowUuid(cells[..k], layout.uuid)
      invariant |sigVals| == 4 && forall ix :: 0 <= ix < 4 ==> sigVals[ix] == SigValue(cells[..k], layout.sig[ix])
    {
      var c := cells[k];
      RowUuidStep(cells, k, layout.uuid);
      if layout.uuid.Some? && c.column == layout.uuid.value && Truthy(c.value) {
        rowUuid := Some(Strip(ToText(c.value)));
      }
      var ix := 0;
      while ix < 4
        invariant 0 <= ix <= 4 && |sigVals| == 4
        invariant forall j :: 0 <= j < ix ==> sigVals[j] == SigValue(cells[..k + 1], layout.sig[j])
        invariant forall j :: ix <= j < 4 ==> sigVals[j] == SigValue(cells[..k], layout.sig[j])
      {
        var cid := layout.sig[ix];
        SigValueStep(cells, k, cid);
        if cid.Some? && c.column == cid.value {
          sigVals := sigVals[ix := Or(OfDisplay(c.display), c.value)];
        }
        ix := ix + 1;
      }
      k := k + 1;
    }
    assert cells[..k] == cells;
  }

  /** The signature of a destination row; `None` when `_make_signature` raises. */
  function RowSignature(cells: seq<Cell>, layout: Layout): Option<Signature>
    requires |layout.sig| == 4
  {
    MakeSignature(SigValue(cells, layout.sig[0]), SigValue(cells, layout.sig[1]),
      SigValue(cells, layout.sig[2]), SigValue(cells, layout.sig[3]))
  }

  /** The key under which a row enters the UUID index: its UUID, if that is
      non-empty after trimming. */
  function UuidKey(r: Row, layout: Layout): Option<string>
  {
    match RowUuid(r.cells, layout.uuid)
    case Some(u) => if u != "" then Some(u) else None
    case None => None
  }

  // ---------------------------------------------------------------------------
  // The two indexes of the destination (main.py:292-307).

  datatype Indexes = Indexes(byUuid: map<string, Id>, bySig: map<Signature, Id>)

  /** What the loop reads from one row before it touches the indexes: the
      row's UUID key, its signature (`None` when `_make_signature` raises)
      and its id. */
  datatype RowKeys = RowKeys(uuid: Option<string>, sig: Option<Signature>, id: Id)

  function KeysOf(r: Row, layout: Layout): RowKeys
    requires |layout.sig| == 4
  {
    RowKeys(UuidKey(r, layout), RowSignature(r.cells, layout), r.id)
  }

  /** The keys of every row, in row order. */
  function AllKeys(rows: seq<Row>, layout: Layout): (e: seq<RowKeys>)
    requires |layout.sig| == 4
    ensures |e| == |rows|
  {
    seq(|rows|, i requires 0 <= i < |rows| => KeysOf(rows[i], layout))
  }

  /** One row entering the indexes; `None` when its signature raises. */
  function AddKeys(ix: Indexes, k: RowKeys): Option<Indexes>
  {
    var byUuid := match k.uuid case Some(u) => ix.byUuid[u := k.id] case None => ix.byUuid;
    match k.sig
    case None => None
    case Some(sig) => Some(Indexes(byUuid, ix.bySig[sig := k.id]))
  }

  /** The indexes after the rows' keys entered in order; `None` once a
      signature raises. */
  function IndexKeys(keys: seq<RowKeys>): Option<Indexes>
  {
    if keys == [] then Some(Indexes(map[], map[]))
    else match IndexKeys(keys[..|keys| - 1])
      case None => None
      case Some(ix) => AddKeys(ix, keys[|keys| - 1])
  }

  /** `uuid_to_row` and `sig_to_row` after the loop over the rows; `None`
      when computing a row's signature raises. */
  function Index(rows: seq<Row>, layout: Layout): Option<Indexes>
    requires |layout.sig| == 4
  {
    IndexKeys(AllKeys(rows, layout))
  }

  /** The loop over the destination rows. */
  method IndexDestination(rows: seq<Row>, layout: Layout) returns (r: Option<Indexes>)
    requires |layout.sig| == 4
    ensures r == Index(rows, layout)
  {
    ghost var keys := AllKeys(rows, layout);
    var byUuid: map<string, Id> := map[];
    var bySig: map<Signature, Id> := map[];
    var k := 0;
    while k < |rows|
      invariant 0 <= k <= |rows|
      invariant IndexKeys(keys[..k]) == Some(Indexes(byUuid, bySig))
    {
      var row := rows[k];
      assert keys[..k + 1][..k] == keys[..k];
      assert IndexKeys(keys[..k + 1]) == AddKeys(Indexes(byUuid, bySig), keys[k]);
      assert keys[k] == KeysOf(row, layout);
      var rowUuid, sigVals := ScanRow(row.cells, layout);
      assert UuidKey(row, layout) == if rowUuid.Some? && rowUuid.value != "" then rowUuid else None;
      if rowUuid.Some? && rowUuid.value != "" {
        byUuid := byUuid[rowUuid.value := row.id];
      }
      var sig := MakeSignature(sigVals[0], sigVals[1], sigVals[2], sigVals[3]);
      assert sig == RowSignature(row.cells, layout);
      if sig.None? {
        IndexRaisesLater(keys, k + 1);
        return None;
      }
      bySig := bySig[sig.value := row.id];
      k := k + 1;
    }
    assert keys[..k] == keys;
    return Some(Indexes(byUuid, bySig));
  }

  /** Once a prefix of the rows raises, so do all the rows. */
  lemma {:induction false} IndexRaisesLater(keys: seq<RowKeys>, k: nat)
    requires k <= |keys| && IndexKeys(keys[..k]).None?
    ensures IndexKeys(keys).None?
  {
    if k < |keys| {
      var n := |keys| - 1;
      assert keys[..n][..k] == keys[..k];
      IndexRaisesLater(keys[..n], k);
    } else {
      assert keys[..k] == keys;
    }
  }

  lemma {:induction false} IndexKeysDefined(keys: seq<RowKeys>)
    ensures IndexKeys(keys).Some? <==> forall i :: 0 <= i < |keys| ==> keys[i].sig.Some?
  {
    if keys != [] {
      var n := |keys| - 1;
      IndexKeysDefined(keys[..n]);
      assert forall i :: 0 <= i < n ==> keys[..n][i] == keys[i];
    }
  }

  /** Indexing succeeds exactly when no row's signature raises. */
  lemma IndexDefined(rows: seq<Row>, layout: Layout)
    requires |layout.sig| == 4
    ensures Index(rows, layout).Some? <==> forall i :: 0 <= i < |rows| ==> RowSignature(rows[i].cells, layout).Some?
  {
    var keys := AllKeys(rows, layout);
    IndexKeysDefined(keys);
    assert forall i :: 0 <= i < |rows| ==> keys[i].sig == RowSignature(rows[i].cells, layout);
  }

  /** Each row's UUID key with its id, in row order. */
  function UuidEntries(rows: seq<Row>, layout: Layout): (e: seq<(Option<string>, Id)>)
    ensures |e| == |rows|
  {
    seq(|rows|, i requires 0 <= i < |rows| => (UuidKey(rows[i], layout), rows[i].id))
  }

  /** Each row's signature with its id, in row order. */
  function SigEntries(rows: seq<Row>, layout: Layout): (e: seq<(Option<Signature>, Id)>)
    requires |layout.sig| == 4
    ensures |e| == |rows|
  {
    seq(|rows|, i requires 0 <= i < |rows| => (RowSignature(rows[i].cells, layout), rows[i].id))
  }

  function UuidPart(keys: seq<RowKeys>): (e: seq<(Option<string>, Id)>)
    ensures |e| == |keys|
  {
    seq(|keys|, i requires 0 <= i < |keys| => (keys[i].uuid, keys[i].id))
  }

  function SigPart(keys: seq<RowKeys>): (e: seq<(Option<Signature>, Id)>)
    ensures |e| == |keys|
  {
    seq(|keys|, i requires 0 <= i < |keys| => (keys[i].sig, keys[i].id))
  }

  lemma {:induction false} IndexKeysSpec(keys: seq<RowKeys>)
    requires IndexKeys(keys).Some?
    ensures IndexKeys(keys).value == Indexes(Indexed(UuidPart(keys)), Indexed(SigPart(keys)))
  {
    if keys != [] {
      var n := |keys| - 1;
      IndexKeysSpec(keys[..n]);
      assert UuidPart(keys)[..n] == UuidPart(keys[..n]);
      assert SigPart(keys)[..n] == SigPart(keys[..n]);
    }
  }

  /** The UUID index holds the rows with a non-empty trimmed UUID, and the
      signature index every row, each filled in row order so that a later
      row overwrites an earlier one with the same key. */
  lemma IndexSpec(rows: seq<Row>, layout: Layout)
    requires |layout.sig| == 4 && Index(rows, layout).Some?
    ensures Index(rows, layout).value == Indexes(Indexed(UuidEntries(rows, layout)), Indexed(SigEntries(rows, layout)))
  {
    var keys := AllKeys(rows, layout);
    IndexKeysSpec(keys);
    assert UuidPart(keys) == UuidEntries(rows, layout);
    assert SigPart(keys) == SigEntries(rows, layout);
  }

  /** Which rows the UUID index holds: exactly the non-empty trimmed UUIDs
      of the rows (never `""`), a UUID shared by several rows giving the id
      of the last of them. */
  lemma IndexUuids(rows: seq<Row>, layout: Layout, u: string)
    requires |layout.sig| == 4 && Index(rows, layout).Some?
    ensures u in Index(rows, layout).value.byUuid <==> exists i :: 0 <= i < |rows| && UuidKey(rows[i], layout) == Some(u)
    ensures "" !in Index(rows, layout).value.byUuid
    ensures u in Index(rows, layout).value.byUuid ==>
      exists i :: LastEntry(UuidEntries(rows, layout), u, i) && Index(rows, layout).value.byUuid[u] == rows[i].id
  {
    IndexSpec(rows, layout);
    var ue := UuidEntries(rows, layout);
    assert forall i :: 0 <= i < |rows| ==> ue[i] == (UuidKey(rows[i], layout), rows[i].id);
    IndexedKeys(ue, u);
    IndexedKeys(ue, "");
    if u in Indexed(ue) {
      IndexedLastWins(ue, u);
    }
  }

  /** Which rows the signature index holds: the signatures of the rows, a
      signature shared by several rows giving the id of the last of them. */
  lemma IndexSignatures(rows: seq<Row>, layout: Layout, sig: Signature)
    requires |layout.sig| == 4 && Index(rows, layout).Some?
    ensures sig in Index(rows, layout).value.bySig <==>
      exists i :: 0 <= i < |rows| && RowSignature(rows[i].cells, layout) == Some(sig)
    ensures sig in Index(rows, layout).value.bySig ==>
      exists i :: LastEntry(SigEntries(rows, layout), sig, i) && Index(rows, layout).value.bySig[sig] == rows[i].id
  {
    IndexSpec(rows, layout);
    var se := SigEntries(rows, layout);
    assert forall i :: 0 <= i < |rows| ==> se[i] == (RowSignature(rows[i].cells, layout), rows[i].id);
    IndexedKeys(se, sig);
    if sig in Indexed(se) {
      IndexedLastWins(se, sig);
    }
  }

  /** Every row of the destination is in the signature index. */
  lemma EveryRowSigned(rows: seq<Row>, layout: Layout, i: int)
    requires |layout.sig| == 4 && Index(rows, layout).Some? && 0 <= i < |rows|
    ensures RowSignature(rows[i].cells, layout).Some?
    ensures RowSignature(rows[i].cells, layout).value in Index(rows, layout).value.bySig
  {
    IndexDefined(rows, layout);
    IndexSignatures(rows, layout, RowSignature(rows[i].cells, layout).value);
  }

  // ---------------------------------------------------------------------------
  // The cells written for one invoice (main.py:322-331).

  /** A fetched invoice: JSON field name to value. */
  type Invoice = map<string, Value>

  /** `{"columnId": cid, "value": val}`. */
  datatype CellWrite = CellWrite(column: Id, value: Value)

  /** `src_key.lower().startswith("date")`. */
  predicate IsDateKey(key: string)
  {
    StartsWith(Lower(key), "date")
  }

  /** `_iso(str(val))` as a cell value (`None` for an empty text). */
  function IsoValue(v: Value): Value
  {
    match Iso(ToText(v))
    case None => Null
    case Some(x) => Str(x)
  }

  /** The cell one rule contributes: none when its target column is not in
      the column index or the invoice has no value (or `None`) for its key. */
  function RuleCell(rule: (string, string), index: map<string, Id>, fac: Invoice): Option<CellWrite>
  {
    var slug := Slug(rule.1);
    var v := Get(fac, rule.0);
    if slug !in index || v == Null then None
    else Some(CellWrite(index[slug], if IsDateKey(rule.0) then IsoValue(v) else v))
  }

  /** The cell each rule contributes, in rule order. */
  function Contributions(rules: seq<(string, string)>, index: map<string, Id>, fac: Invoice): (c: seq<Option<CellWrite>>)
    ensures |c| == |rules|
  {
    seq(|rules|, i requires 0 <= i < |rules| => RuleCell(rules[i], index, fac))
  }

  /** The cells of an invoice, one per contributing rule, in rule order. */
  function Cells(rules: seq<(string, string)>, index: map<string, Id>, fac: Invoice): seq<CellWrite>
  {
    Present(Contributions(rules, index, fac))
  }

  /** The loop over the rules that appends to `cells`. */
  method BuildCells(rules: seq<(string, string)>, index: map<string, Id>, fac: Invoice) returns (cells: seq<CellWrite>)
    ensures cells == Cells(rules, index, fac)
  {
    ghost var contributions := Contributions(rules, index, fac);
    cells := [];
    var k := 0;
    while k < |rules|
      invariant 0 <= k <= |rules|
      invariant cells == Present(contributions[..k])
    {
      assert contributions[..k + 1][..k] == contributions[..k];
      assert contributions[k] == RuleCell(rules[k], index, fac);
      var (srcKey, destCol) := rules[k];
      var slug := Slug(destCol);
      if slug in index {
        var v := Get(fac, srcKey);
        if v != Null {
          if IsDateKey(srcKey) {
            v := IsoValue(v);
          }
          cells := cells + [CellWrite(index[slug], v)];
        }
      }
      k := k + 1;
    }
    assert contributions[..k] == contributions;
  }

  /** A rule contributes a cell exactly when its target's slug names a
      column of the destination and the invoice has a non-null value for its
      key; the cell goes to the last such column and carries the value, put
      through `_iso` when the key starts with "date" in any case. */
  lemma RuleCellSpec(rule: (string, string), columns: seq<Column>, fac: Invoice)
    ensures RuleCell(rule, ColumnIndex(columns), fac).Some? <==>
      (exists i :: 0 <= i < |columns| && Key(columns[i]) == Slug(rule.1)) && rule.0 in fac && fac[rule.0] != Null
    ensures RuleCell(rule, ColumnIndex(columns), fac).Some? ==>
      var w := RuleCell(rule, ColumnIndex(columns), fac).value;
      (exists i :: Witness(columns, Slug(rule.1), i) && w.column == columns[i].id) &&
      w.value == (if IsDateKey(rule.0) then IsoValue(fac[rule.0]) else fac[rule.0])
  {
    ColumnIndexKeys(columns, Slug(rule.1));
    if Slug(rule.1) in ColumnIndex(columns) {
      ColumnIndexLookup(columns, Slug(rule.1));
    }
  }

  /** The invoice's cells are exactly the contributions of its rules, at most
      one per rule; there are none exactly when no rule contributes. */
  lemma CellsSpec(rules: seq<(string, string)>, index: map<string, Id>, fac: Invoice)
    ensures |Cells(rules, index, fac)| <= |rules|
    ensures Cells(rules, index, fac) == [] <==> forall i :: 0 <= i < |rules| ==> RuleCell(rules[i], index, fac).None?
    ensures forall w :: w in Cells(rules, index, fac) <==>
      exists i :: 0 <= i < |rules| && RuleCell(rules[i], index, fac) == Some(w)
  {
    var contributions := Contributions(rules, index, fac);
    PresentSpec(contributions);
    assert forall i :: 0 <= i < |rules| ==> contributions[i] == RuleCell(rules[i], index, fac);
  }

  // ---------------------------------------------------------------------------
  // Routing each invoice (main.py:312-345).

  /** `str(fac.get("UUID") or "").strip()`. */
  function InvoiceUuid(fac: Invoice): string
  {
    Strip(ToText(Or(Get(fac, "UUID"), Str(""))))
  }

  /** The invoice's signature; `None` when `_make_signature` raises. */
  function InvoiceSignature(fac: Invoice): Option<Signature>
  {
    MakeSignature(Get(fac, "Date"), Get(fac, "RFC"), Get(fac, "Total"), Get(fac, "CFDIUse"))
  }

  /** The row an invoice updates: by UUID when it has one that is indexed,
      otherwise by signature. */
  function Target(fac: Invoice, sig: Signature, ix: Indexes): Option<Id>
  {
    var u := InvoiceUuid(fac);
    if u != "" && u in ix.byUuid then Some(ix.byUuid[u])
    else if sig in ix.bySig then Some(ix.bySig[sig])
    else None
  }

  /** What happens to one invoice. */
  datatype Route = Raises | Drops | Inserts(cells: seq<CellWrite>) | Updates(row: Id, cells: seq<CellWrite>)

  function RouteOf(fac: Invoice, rules: seq<(string, string)>, index: map<string, Id>, ix: Indexes): Route
  {
    match InvoiceSignature(fac)
    case None => Raises
    case Some(sig) =>
      var cells := Cells(rules, index, fac);
      if cells == [] then Drops
      else match Target(fac, sig, ix)
        case None => Inserts(cells)
        case Some(row) => Updates(row, cells)
  }

  /** `{"id": row_id, "cells": cells}`. */
  datatype Update = Update(row: Id, cells: seq<CellWrite>)

  /** The two batches: rows to insert and rows to update. */
  datatype Plan = Plan(inserts: seq<seq<CellWrite>>, updates: seq<Update>)

  function AddRoute(p: Plan, r: Route): Option<Plan>
  {
    match r
    case Raises => None
    case Drops => Some(p)
    case Inserts(cells) => Some(Plan(p.inserts + [cells], p.updates))
    case Updates(row, cells) => Some(Plan(p.inserts, p.updates + [Update(row, cells)]))
  }

  /** The batches after routing a sequence of invoices in order; `None`
      once one raises. */
  function Collect(routes: seq<Route>): Option<Plan>
  {
    if routes == [] then Some(Plan([], []))
    else match Collect(routes[..|routes| - 1])
      case None => None
      case Some(p) => AddRoute(p, routes[|routes| - 1])
  }

  /** The route of each invoice, in fetch order. */
  function Routes(facs: seq<Invoice>, rules: seq<(string, string)>, index: map<string, Id>, ix: Indexes): (r: seq<Route>)
    ensures |r| == |facs|
  {
    seq(|facs|, i requires 0 <= i < |facs| => RouteOf(facs[i], rules, index, ix))
  }

  /** `inserts` and `updates` after the loop over the invoices; `None` when
      an invoice's signature raises. */
  function Split(facs: seq<Invoice>, rules: seq<(string, string)>, index: map<string, Id>, ix: Indexes): Option<Plan>
  {
    Collect(Routes(facs, rules, index, ix))
  }

  /** The loop over the fetched invoices. */
  method SplitInvoices(facs: seq<Invoice>, rules: seq<(string, string)>, index: map<string, Id>, ix: Indexes)
    returns (plan: Option<Plan>)
    ensures plan == Split(facs, rules, index, ix)
  {
    ghost var routes := Routes(facs, rules, index, ix);
    var inserts: seq<seq<CellWrite>> := [];
    var updates: seq<Update> := [];
    var k := 0;
    while k < |facs|
      invariant 0 <= k <= |facs|
      invariant Collect(routes[..k]) == Some(Plan(inserts, updates))
    {
      var fac := facs[k];
      assert routes[..k + 1][..k] == routes[..k];
      assert Collect(routes[..k + 1]) == AddRoute(Plan(inserts, updates), routes[k]);
      assert routes[k] == RouteOf(fac, rules, index, ix);
      var uuid := InvoiceUuid(fac);
      var sig := MakeSignature(Get(fac, "Date"), Get(fac, "RFC"), Get(fac, "Total"), Get(fac, "CFDIUse"));
      assert sig == InvoiceSignature(fac);
      if sig.None? {
        CollectRaisesLater(routes, k + 1);
        return None;
      }
      var cells := BuildCells(rules, index, fac);
      if cells != [] {
        var row: Option<Id> := None;
        if uuid != "" && uuid in ix.byUuid {
          row := Some(ix.byUuid[uuid]);
        }
        if row.None? && sig.value in ix.bySig {
          row := Some(ix.bySig[sig.value]);
        }
        assert row == Target(fac, sig.value, ix);
        if row.Some? {
          updates := updates + [Update(row.value, cells)];
        } else {
          inserts := inserts + [cells];
        }
      }
      k := k + 1;
    }
    assert routes[..k] == routes;
    return Some(Plan(inserts, updates));
  }

  /** Once a prefix of the routes raises, so do all of them. */
  lemma {:induction false} CollectRaisesLater(routes: seq<Route>, k: nat)
    requires k <= |routes| && Collect(routes[..k]).None?
    ensures Collect(routes).None?
  {
    if k < |routes| {
      var n := |routes| - 1;
      assert routes[..n][..k] == routes[..k];
      CollectRaisesLater(routes[..n], k);
    } else {
      assert routes[..k] == routes;
    }
  }

  /** Collecting succeeds exactly when no route raises. */
  lemma {:induction false} CollectDefined(routes: seq<Route>)
    ensures Collect(routes).Some? <==> forall i :: 0 <= i < |routes| ==> routes[i] != Raises
  {
    if routes != [] {
      var n := |routes| - 1;
      CollectDefined(routes[..n]);
      assert forall i :: 0 <= i < n ==> routes[..n][i] == routes[i];
    }
  }

  /** How many routes place an invoice in a batch. */
  function Placed(routes: seq<Route>): nat
  {
    if routes == [] then 0
    else Placed(routes[..|routes| - 1]) + (if routes[|routes| - 1].Inserts? || routes[|routes| - 1].Updates? then 1 else 0)
  }

  lemma {:induction false} CollectCount(routes: seq<Route>)
    requires Collect(routes).Some?
    ensures |Collect(routes).value.inserts| + |Collect(routes).value.updates| == Placed(routes)
  {
    if routes != [] {
      CollectCount(routes[..|routes| - 1]);
    }
  }

  lemma {:induction false} CollectPrefix(routes: seq<Route>, k: nat)
    requires k <= |routes| && Collect(routes).Some?
    ensures Collect(routes[..k]).Some?
    ensures Collect(routes[..k]).value.inserts <= Collect(routes).value.inserts
    ensures Collect(routes[..k]).value.updates <= Collect(routes).value.updates
  {
    if k < |routes| {
      var n := |routes| - 1;
      assert routes[..n][..k] == routes[..k];
      CollectPrefix(routes[..n], k);
    } else {
      assert routes[..k] == routes;
    }
  }

  lemma {:induction false} CollectMembers(routes: seq<Route>)
    requires Collect(routes).Some?
    ensures forall i :: 0 <= i < |routes| && routes[i].Inserts? ==> routes[i].cells in Collect(routes).value.inserts
    ensures forall i :: 0 <= i < |routes| && routes[i].Updates? ==>
      Update(routes[i].row, routes[i].cells) in Collect(routes).value.updates
    ensures forall c :: c in Collect(routes).value.inserts ==> exists i :: 0 <= i < |routes| && routes[i] == Inserts(c)
    ensures forall u :: u in Collect(routes).value.updates ==> exists i :: 0 <= i < |routes| && routes[i] == Updates(u.row, u.cells)
  {
    if routes != [] {
      var n := |routes| - 1;
      CollectMembers(routes[..n]);
      assert forall i :: 0 <= i < n ==> routes[..n][i] == routes[i];
    }
  }

  /** An invoice raises exactly when its signature does, and is placed in a
      batch exactly when it also has a cell. */
  lemma RouteCases(fac: Invoice, rules: seq<(string, string)>, index: map<string, Id>, ix: Indexes)
    ensures RouteOf(fac, rules, index, ix) == Raises <==> InvoiceSignature(fac).None?
    ensures RouteOf(fac, rules, index, ix) == Drops <==> InvoiceSignature(fac).Some? && Cells(rules, index, fac) == []
    ensures RouteOf(fac, rules, index, ix).Inserts? || RouteOf(fac, rules, index, ix).Updates? ==>
      RouteOf(fac, rules, index, ix).cells == Cells(rules, index, fac) != []
  {
  }

  /** The split goes through exactly when no invoice's signature raises. */
  lemma SplitDefined(facs: seq<Invoice>, rules: seq<(string, string)>, index: map<string, Id>, ix: Indexes)
    ensures Split(facs, rules, index, ix).Some? <==> forall i :: 0 <= i < |facs| ==> InvoiceSignature(facs[i]).Some?
  {
    var routes := Routes(facs, rules, index, ix);
    CollectDefined(routes);
    forall i | 0 <= i < |facs| ensures routes[i] == Raises <==> InvoiceSignature(facs[i]).None? {
      RouteCases(facs[i], rules, index, ix);
    }
  }

  /** Whether each invoice has at least one cell, in fetch order. */
  function WithCells(facs: seq<Invoice>, rules: seq<(string, string)>, index: map<string, Id>): (b: seq<bool>)
    ensures |b| == |facs|
  {
    seq(|facs|, i requires 0 <= i < |facs| => Cells(rules, index, facs[i]) != [])
  }

  function CountTrue(bs: seq<bool>): nat
  {
    if bs == [] then 0 else CountTrue(bs[..|bs| - 1]) + (if bs[|bs| - 1] then 1 else 0)
  }

  /** How many invoices have at least one cell. */
  function CountWithCells(facs: seq<Invoice>, rules: seq<(string, string)>, index: map<string, Id>): nat
  {
    CountTrue(WithCells(facs, rules, index))
  }

  lemma {:induction false} PlacedCountTrue(routes: seq<Route>, bs: seq<bool>)
    requires |routes| == |bs|
    requires forall i :: 0 <= i < |bs| ==> (routes[i].Inserts? || routes[i].Updates? <==> bs[i])
    ensures Placed(routes) == CountTrue(bs)
  {
    if bs != [] {
      var n := |bs| - 1;
      assert forall i :: 0 <= i < n ==> routes[..n][i] == routes[i] && bs[..n][i] == bs[i];
      PlacedCountTrue(routes[..n], bs[..n]);
    }
  }

  lemma PlacedCount(facs: seq<Invoice>, rules: seq<(string, string)>, index: map<string, Id>, ix: Indexes)
    requires forall i :: 0 <= i < |facs| ==> InvoiceSignature(facs[i]).Some?
    ensures Placed(Routes(facs, rules, index, ix)) == CountWithCells(facs, rules, index)
  {
    var routes, bs := Routes(facs, rules, index, ix), WithCells(facs, rules, index);
    forall i | 0 <= i < |facs| ensures routes[i].Inserts? || routes[i].Updates? <==> bs[i] {
      RouteCases(facs[i], rules, index, ix);
    }
    PlacedCountTrue(routes, bs);
  }

  /** Partition completeness: every invoice with a cell lands in exactly one
      of the two batches and every invoice without cells in neither, so the
      batch sizes add up to the number of invoices with cells. */
  lemma PartitionCount(facs: seq<Invoice>, rules: seq<(string, string)>, index: map<string, Id>, ix: Indexes)
    requires Split(facs, rules, index, ix).Some?
    ensures var p := Split(facs, rules, index, ix).value;
      |p.inserts| + |p.updates| == CountWithCells(facs, rules, index)
  {
    SplitDefined(facs, rules, index, ix);
    CollectCount(Routes(facs, rules, index, ix));
    PlacedCount(facs, rules, index, ix);
  }

  /** The batches keep fetch order: the plan for the first `k` invoices is
      a prefix of the plan for all of them, in both batches. */
  lemma SplitPrefix(facs: seq<Invoice>, rules: seq<(string, string)>, index: map<string, Id>, ix: Indexes, k: nat)
    requires k <= |facs| && Split(facs, rules, index, ix).Some?
    ensures Split(facs[..k], rules, index, ix).Some?
    ensures var p, q := Split(facs[..k], rules, index, ix).value, Split(facs, rules, index, ix).value;
      p.inserts <= q.inserts && p.updates <= q.updates
  {
    CollectPrefix(Routes(facs, rules, index, ix), k);
    assert Routes(facs, rules, index, ix)[..k] == Routes(facs[..k], rules, index, ix);
  }

  /** Each invoice's route shows up in its batch, and each batch entry comes
      from some invoice's route. */
  lemma SplitRoutes(facs: seq<Invoice>, rules: seq<(string, string)>, index: map<string, Id>, ix: Indexes)
    requires Split(facs, rules, index, ix).Some?
    ensures var p := Split(facs, rules, index, ix).value;
      forall i :: 0 <= i < |facs| && RouteOf(facs[i], rules, index, ix).Inserts? ==>
        RouteOf(facs[i], rules, index, ix).cells in p.inserts
    ensures var p := Split(facs, rules, index, ix).value;
      forall i :: 0 <= i < |facs| && RouteOf(facs[i], rules, index, ix).Updates? ==>
        Update(RouteOf(facs[i], rules, index, ix).row, RouteOf(facs[i], rules, index, ix).cells) in p.updates
    ensures var p := Split(facs, rules, index, ix).value;
      forall c :: c in p.inserts ==> exists i :: 0 <= i < |facs| && RouteOf(facs[i], rules, index, ix) == Inserts(c)
    ensures var p := Split(facs, rules, index, ix).value;
      forall u :: u in p.updates ==> exists i :: 0 <= i < |facs| && RouteOf(facs[i], rules, index, ix) == Updates(u.row, u.cells)
  {
    var routes := Routes(facs, rules, index, ix);
    CollectMembers(routes);
    assert forall i :: 0 <= i < |facs| ==> routes[i] == RouteOf(facs[i], rules, index, ix);
  }

  /** Among entries, the last one with a key is unique. */
  lemma LastEntryUnique<K, V>(entries: seq<(Option<K>, V)>, k: K, i: int, j: int)
    requires LastEntry(entries, k, i) && LastEntry(entries, k, j)
    ensures i == j
  {
  }

  /** The UUID of destination row `i`, the last row carrying it, maps to row `i`. */
  lemma UuidIndexed(rows: seq<Row>, layout: Layout, u: string, i: int)
    requires |layout.sig| == 4 && Index(rows, layout).Some?
    requires LastEntry(UuidEntries(rows, layout), u, i)
    ensures u != "" && u in Index(rows, layout).value.byUuid
    ensures Index(rows, layout).value.byUuid[u] == rows[i].id
  {
    var entries := UuidEntries(rows, layout);
    assert entries[i] == (UuidKey(rows[i], layout), rows[i].id);
    IndexSpec(rows, layout);
    IndexedKeys(entries, u);
    IndexedLastWins(entries, u);
    var j :| LastEntry(entries, u, j) && Indexed(entries)[u] == entries[j].1;
    LastEntryUnique(entries, u, i, j);
  }

  /** The signature of destination row `i`, the last row with it, maps to row `i`. */
  lemma SigIndexed(rows: seq<Row>, layout: Layout, sig: Signature, i: int)
    requires |layout.sig| == 4 && Index(rows, layout).Some?
    requires LastEntry(SigEntries(rows, layout), sig, i)
    ensures sig in Index(rows, layout).value.bySig
    ensures Index(rows, layout).value.bySig[sig] == rows[i].id
  {
    var entries := SigEntries(rows, layout);
    IndexSpec(rows, layout);
    IndexedKeys(entries, sig);
    IndexedLastWins(entries, sig);
    var j :| LastEntry(entries, sig, j) && Indexed(entries)[sig] == entries[j].1;
    LastEntryUnique(entries, sig, i, j);
  }

  /** Identity precedence: an invoice whose UUID is that of destination row
      `i` (the last row with that UUID) updates row `i`, whatever its
      signature matches. */
  lemma IdentityPrecedence(rows: seq<Row>, layout: Layout, fac: Invoice, rules: seq<(string, string)>, index: map<string, Id>, i: int)
    requires |layout.sig| == 4 && Index(rows, layout).Some?
    requires InvoiceSignature(fac).Some? && Cells(rules, index, fac) != []
    requires LastEntry(UuidEntries(rows, layout), InvoiceUuid(fac), i)
    ensures RouteOf(fac, rules, index, Index(rows, layout).value) == Updates(rows[i].id, Cells(rules, index, fac))
  {
    UuidIndexed(rows, layout, InvoiceUuid(fac), i);
    var ix := Index(rows, layout).value;
    assert Target(fac, InvoiceSignature(fac).value, ix) == Some(rows[i].id);
    RouteUpdates(fac, rules, index, ix);
  }

  /** An invoice with a signature, cells and a target row updates that row. */
  lemma RouteUpdates(fac: Invoice, rules: seq<(string, string)>, index: map<string, Id>, ix: Indexes)
    requires InvoiceSignature(fac).Some? && Cells(rules, index, fac) != []
    ensures Target(fac, InvoiceSignature(fac).value, ix).Some? ==>
      RouteOf(fac, rules, index, ix) == Updates(Target(fac, InvoiceSignature(fac).value, ix).value, Cells(rules, index, fac))
    ensures Target(fac, InvoiceSignature(fac).value, ix).None? ==>
      RouteOf(fac, rules, index, ix) == Inserts(Cells(rules, index, fac))
  {
  }

  /** A UUID that no row carries is not in the UUID index. */
  lemma UuidUnmatched(rows: seq<Row>, layout: Layout, u: string)
    requires |layout.sig| == 4 && Index(rows, layout).Some?
    requires forall j :: 0 <= j < |rows| ==> UuidKey(rows[j], layout) != Some(u)
    ensures u !in Index(rows, layout).value.byUuid
  {
    IndexSpec(rows, layout);
    var uuids := UuidEntries(rows, layout);
    assert forall j :: 0 <= j < |rows| ==> uuids[j].0 != Some(u);
    IndexedKeys(uuids, u);
  }

  /** A signature that no row has is not in the signature index. */
  lemma SigUnmatched(rows: seq<Row>, layout: Layout, sig: Signature)
    requires |layout.sig| == 4 && Index(rows, layout).Some?
    requires forall j :: 0 <= j < |rows| ==> RowSignature(rows[j].cells, layout) != Some(sig)
    ensures sig !in Index(rows, layout).value.bySig
  {
    IndexSpec(rows, layout);
    var sigs := SigEntries(rows, layout);
    assert forall j :: 0 <= j < |rows| ==> sigs[j].0 != Some(sig);
    IndexedKeys(sigs, sig);
  }

  /** Signature fallback: an invoice whose UUID is empty or matches no
      destination row updates the last row with the same signature. */
  lemma SignatureFallback(rows: seq<Row>, layout: Layout, fac: Invoice, rules: seq<(string, string)>, index: map<string, Id>, i: int)
    requires |layout.sig| == 4 && Index(rows, layout).Some?
    requires InvoiceSignature(fac).Some? && Cells(rules, index, fac) != []
    requires forall j :: 0 <= j < |rows| ==> UuidKey(rows[j], layout) != Some(InvoiceUuid(fac))
    requires LastEntry(SigEntries(rows, layout), InvoiceSignature(fac).value, i)
    ensures RouteOf(fac, rules, index, Index(rows, layout).value) == Updates(rows[i].id, Cells(rules, index, fac))
  {
    var sig := InvoiceSignature(fac).value;
    UuidUnmatched(rows, layout, InvoiceUuid(fac));
    SigIndexed(rows, layout, sig, i);
    var ix := Index(rows, layout).value;
    assert Target(fac, sig, ix) == Some(rows[i].id);
    RouteUpdates(fac, rules, index, ix);
  }

  /** An invoice with cells that matches no destination row, by UUID or by
      signature, is inserted. */
  lemma NewInvoiceInserted(rows: seq<Row>, layout: Layout, fac: Invoice, rules: seq<(string, string)>, index: map<string, Id>)
    requires |layout.sig| == 4 && Index(rows, layout).Some?
    requires InvoiceSignature(fac).Some? && Cells(rules, index, fac) != []
    requires forall j :: 0 <= j < |rows| ==> UuidKey(rows[j], layout) != Some(InvoiceUuid(fac))
    requires forall j :: 0 <= j < |rows| ==> RowSignature(rows[j].cells, layout) != InvoiceSignature(fac)
    ensures RouteOf(fac, rules, index, Index(rows, layout).value) == Inserts(Cells(rules, index, fac))
  {
    var sig := InvoiceSignature(fac).value;
    UuidUnmatched(rows, layout, InvoiceUuid(fac));
    SigUnmatched(rows, layout, sig);
    var ix := Index(rows, layout).value;
    assert Target(fac, sig, ix) == None;
    RouteUpdates(fac, rules, index, ix);
  }

  /** The row a target names is a row of the destination sheet. */
  lemma TargetIsRow(rows: seq<Row>, layout: Layout, fac: Invoice, sig: Signature)
    requires |layout.sig| == 4 && Index(rows, layout).Some?
    requires Target(fac, sig, Index(rows, layout).value).Some?
    ensures exists i :: 0 <= i < |rows| && rows[i].id == Target(fac, sig, Index(rows, layout).value).value
  {
    var ix := Index(rows, layout).value;
    IndexSpec(rows, layout);
    var u := InvoiceUuid(fac);
    var uuids, sigs := UuidEntries(rows, layout), SigEntries(rows, layout);
    if u != "" && u in ix.byUuid {
      IndexedIds(uuids, u);
      var i :| 0 <= i < |uuids| && Indexed(uuids)[u] == uuids[i].1;
      assert rows[i].id == Target(fac, sig, ix).value;
    } else {
      IndexedIds(sigs, sig);
      var i :| 0 <= i < |sigs| && Indexed(sigs)[sig] == sigs[i].1;
      assert rows[i].id == Target(fac, sig, ix).value;
    }
  }

  /** Every update targets a row that exists in the destination sheet. */
  lemma UpdatesTargetRows(rows: seq<Row>, layout: Layout, facs: seq<Invoice>, rules: seq<(string, string)>, index: map<string, Id>)
    requires |layout.sig| == 4 && Index(rows, layout).Some?
    requires Split(facs, rules, index, Index(rows, layout).value).Some?
    ensures forall u :: u in Split(facs, rules, index, Index(rows, layout).value).value.updates ==>
      exists i :: 0 <= i < |rows| && rows[i].id == u.row
  {
    var ix := Index(rows, layout).value;
    var routes := Routes(facs, rules, index, ix);
    CollectMembers(routes);
    forall u | u in Split(facs, rules, index, ix).value.updates
      ensures exists i :: 0 <= i < |rows| && rows[i].id == u.row
    {
      var k :| 0 <= k < |routes| && routes[k] == Updates(u.row, u.cells);
      var fac := facs[k];
      assert RouteOf(fac, rules, index, ix) == Updates(u.row, u.cells);
      RouteCases(fac, rules, index, ix);
      RouteUpdates(fac, rules, index, ix);
      TargetIsRow(rows, layout, fac, InvoiceSignature(fac).value);
    }
  }

  // ---------------------------------------------------------------------------
  // The whole push, without the writes (main.py:259-345).

  /** A destination that could not be opened, a push that raised, or the
      two batches to write. */
  datatype PushOutcome = Unopened | Raised | Planned(plan: Plan)

  /** `_push_to_sheet` up to the writes. `sheet` is the destination as
      fetched (`None` when opening it fails); `parse` stands for `json.loads`. */
  function Push(sheet: Option<Sheet>, facs: seq<Invoice>, rulesCell: Value, parse: string -> Option<Json>): PushOutcome
  {
    match sheet
    case None => Unopened
    case Some(dest) =>
      var index := ColumnIndex(dest.columns);
      match RuleList(ResolveRules(rulesCell, parse))
      case None => Raised
      case Some(rules) =>
        var layout := LayoutOf(rules, index);
        match Index(dest.rows, layout)
        case None => Raised
        case Some(ix) =>
          match Split(facs, rules, index, ix)
          case None => Raised
          case Some(p) => Planned(p)
  }

  method PushToSheet(sheet: Option<Sheet>, facs: seq<Invoice>, rulesCell: Value, parse: string -> Option<Json>)
    returns (out: PushOutcome)
    ensures out == Push(sheet, facs, rulesCell, parse)
  {
    if sheet.None? {
      return Unopened;
    }
    var dest := sheet.value;
    var index := ColumnIndex(dest.columns);
    var rules := RuleList(ResolveRules(rulesCell, parse));
    if rules.None? {
      return Raised;
    }
    var layout := LayoutOf(rules.value, index);
    var ix := IndexDestination(dest.rows, layout);
    if ix.None? {
      return Raised;
    }
    var plan := SplitInvoices(facs, rules.value, index, ix.value);
    if plan.None? {
      return Raised;
    }
    return Planned(plan.value);
  }

  /** A planned push updates only rows of the destination sheet, and places
      each invoice that has a cell in exactly one batch. */
  lemma PushPlanned(sheet: Option<Sheet>, facs: seq<Invoice>, rulesCell: Value, parse: string -> Option<Json>)
    requires Push(sheet, facs, rulesCell, parse).Planned?
    ensures var p, dest := Push(sheet, facs, rulesCell, parse).plan, sheet.value;
      forall u :: u in p.updates ==> exists i :: 0 <= i < |dest.rows| && dest.rows[i].id == u.row
    ensures var p, dest := Push(sheet, facs, rulesCell, parse).plan, sheet.value;
      |p.inserts| + |p.updates| ==
        CountWithCells(facs, RuleList(ResolveRules(rulesCell, parse)).value, ColumnIndex(dest.columns))
  {
    var dest := sheet.value;
    var index := ColumnIndex(dest.columns);
    var rules := RuleList(ResolveRules(rulesCell, parse)).value;
    var layout := LayoutOf(rules, index);
    UpdatesTargetRows(dest.rows, layout, facs, rules, index);
    PartitionCount(facs, rules, index, Index(dest.rows, layout).value);
  }

  /** Without usable rules in the account's cell, the push maps the five
      default fields. */
  lemma PushDefaultRules(cell: Value, parse: string -> Option<Json>)
    requires !Truthy(cell) || cell.Num? || (cell.Str? && parse(cell.s).None?)
    ensures RuleList(ResolveRules(cell, parse)) == Some(DefaultPairs)
  {
    ResolveRulesCases(cell, parse);
    DefaultRuleList();
  }
}
