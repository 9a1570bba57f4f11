/** What `_push_to_sheet` sends (main.py:347-356) and the log truncation
    `_short_json` (main.py:362-364). The HTTP requests themselves are not
    modelled; a write is named by its method and its batch. */
module Writer {
  import opened Reconcile

  /** `POST .../rows` with the rows to insert, `PUT .../rows` with the
      updates. */
  datatype Call = Post(rows: seq<seq<CellWrite>>) | Put(updates: seq<Update>)

  /** The writes issued for a plan, in order. */
  function Writes(p: Plan): (calls: seq<Call>)
    ensures Post(p.inserts) in calls <==> p.inserts != []
    ensures Put(p.updates) in calls <==> p.updates != []
    ensures forall c :: c in calls ==> c == Post(p.inserts) || c == Put(p.updates)
    ensures forall i, j :: 0 <= i < |calls| && 0 <= j < |calls| && calls[i].Put? && calls[j].Post? ==> j < i
  {
    (if p.inserts != [] then [Post(p.inserts)] else []) + (if p.updates != [] then [Put(p.updates)] else [])
  }

  /** `txt if len(txt) <= max_len else txt[:max_len] + " …"`. */
  function ShortText(txt: string, maxLen: nat): (r: string)
    ensures |txt| <= maxLen ==> r == txt
    ensures |txt| > maxLen ==> |r| == maxLen + 2 && r[..maxLen] == txt[..maxLen] && r[maxLen..] == " \U{2026}"
  {
    if |txt| <= maxLen then txt else txt[..maxLen] + " \U{2026}"
  }
}
