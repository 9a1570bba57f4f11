/** Dynamic values as the service sees them: JSON fields of a fetched invoice,
    cell values of a sheet, configuration cells. */
module Values {

  datatype Option<+T> = None | Some(value: T)

  /** The values that are present, in order. */
  function Present<T>(xs: seq<Option<T>>): seq<T>
  {
    if xs == [] then []
    else Present(xs[..|xs| - 1]) + (match xs[|xs| - 1] case Some(x) => [x] case None => [])
  }

  /** The present values are at most as many as the options; there are
      none exactly when every option is empty; and a value is present
      exactly when some option holds it. */
  lemma {:induction false} PresentSpec<T>(xs: seq<Option<T>>)
    ensures |Present(xs)| <= |xs|
    ensures Present(xs) == [] <==> forall i :: 0 <= i < |xs| ==> xs[i].None?
    ensures forall w :: w in Present(xs) <==> exists i :: 0 <= i < |xs| && xs[i] == Some(w)
  {
    if xs != [] {
      var n := |xs| - 1;
      PresentSpec(xs[..n]);
      assert forall i :: 0 <= i < n ==> xs[..n][i] == xs[i];
    }
  }

  /** A Python value of the kinds the service handles: `None`, a string, or a
      number carried as the text `str()` gives it (a plain decimal literal). */
  datatype Value = Null | Str(s: string) | Num(lit: string)

  /** Positive identifiers (sheet column ids and row ids); the service tests
      them for truthiness, which for a positive id is presence. */
  type Id = x: int | 0 < x witness 1

  predicate IsNonZeroDigit(c: char) { '1' <= c <= '9' }

  /** Python truthiness: `None`, `""` and zero are false. */
  predicate Truthy(v: Value)
  {
    match v
    case Null => false
    case Str(s) => s != ""
    case Num(lit) => exists i :: 0 <= i < |lit| && IsNonZeroDigit(lit[i])
  }

  /** Python's `a or b`. */
  function Or(a: Value, b: Value): (r: Value)
    ensures Truthy(a) ==> r == a
    ensures !Truthy(a) ==> r == b
  {
    if Truthy(a) then a else b
  }

  /** Python's `str(v)`. */
  function ToText(v: Value): string
  {
    match v
    case Null => "None"
    case Str(s) => s
    case Num(lit) => lit
  }

  /** Python's `d.get(k)` on a dictionary of values. */
  function Get(d: map<string, Value>, k: string): (r: Value)
    ensures k !in d ==> r == Null
    ensures k in d ==> r == d[k]
  {
    if k in d then d[k] else Null
  }

  /** An optional display string seen as a value (`None` stays `None`). */
  function OfDisplay(display: Option<string>): Value
  {
    match display
    case None => Null
    case Some(s) => Str(s)
  }
}
