/** The composite identity of an invoice: `_make_signature` (main.py:200-206),
    built from `_iso` (main.py:89-95) and `_coerce_total` (main.py:193-197). */
module Identity {
  import opened Values
  import opened Text
  import opened Dates
  import opened Numbers

  /** The signature tuple: issue date, tax id (RFC), total in cents, CFDI use.
      The date stays a value: a number passes through `_iso` unchanged. */
  datatype Signature = Signature(date: Value, taxId: string, total: int, use: string)

  /** `_iso(date or "") or ""`. */
  function SignatureDate(v: Value): Value
  {
    if !Truthy(v) then Str("")
    else match v
      case Str(s) => (match Iso(s) case None => Str("") case Some(x) => Str(x))
      case _ => v   // slicing a number raises inside `_iso`, which hands it back
  }

  /** `(rfc or "").strip().upper()`; `None` when `.strip()` is applied to a
      number and raises. */
  function SignatureTaxId(v: Value): Option<string>
  {
    if !Truthy(v) then Some("")
    else match v
      case Str(s) => Some(Upper(Strip(s)))
      case _ => None
  }

  /** `str(cfdi or "").strip()`. */
  function SignatureUse(v: Value): string
  {
    if !Truthy(v) then "" else Strip(ToText(v))
  }

  /** `_make_signature(date, rfc, total, cfdi)`; `None` when it raises. */
  function MakeSignature(date: Value, rfc: Value, total: Value, cfdi: Value): (r: Option<Signature>)
    ensures r.None? <==> Truthy(rfc) && !rfc.Str?
  {
    match SignatureTaxId(rfc)
    case None => None
    case Some(taxId) =>
      Some(Signature(SignatureDate(date), taxId, CoerceTotal(total), SignatureUse(cfdi)))
  }

  lemma DateComponent(date: Value)
    ensures date == Null || date == Str("") ==> SignatureDate(date) == Str("")
    ensures forall d :: date == Str(d) && d != "" && |d| >= 10 && ParseDate(d[..10]).Some? ==>
      SignatureDate(date) == Str(d[..10])
    ensures forall d :: date == Str(d) && d != "" && (|d| < 10 || ParseDate(d[..10]).None?) ==>
      SignatureDate(date) == Str(d)
  {
    if date.Str? {
      IsoCases(date.s);
    }
  }

  lemma TaxIdComponent(rfc: Value)
    ensures rfc == Null ==> SignatureTaxId(rfc) == Some("")
    ensures forall s :: rfc == Str(s) ==> SignatureTaxId(rfc) == Some(Upper(Strip(s)))
  {
    if rfc == Str("") {
      assert Upper(Strip("")) == "";
    }
  }

  lemma UseComponent(cfdi: Value)
    ensures cfdi == Null || cfdi == Str("") ==> SignatureUse(cfdi) == ""
    ensures forall s :: cfdi == Str(s) ==> SignatureUse(cfdi) == Strip(s)
  {
    if cfdi == Str("") {
      assert Strip("") == "";
    }
  }

  /** How each component of the signature is built: a missing date, RFC or
      CFDI use gives `""`, a missing or non-numeric total gives 0, the tax id
      is the trimmed, upper-cased RFC, and a date whose first ten characters
      parse is put in canonical form while any other date passes unchanged. */
  lemma SignatureComponents(date: Value, rfc: Value, total: Value, cfdi: Value)
    requires MakeSignature(date, rfc, total, cfdi).Some?
    ensures var g := MakeSignature(date, rfc, total, cfdi).value;
      && (date == Null || date == Str("") ==> g.date == Str(""))
      && (forall d :: date == Str(d) && d != "" && |d| >= 10 && ParseDate(d[..10]).Some? ==>
            g.date == Str(d[..10]))
      && (forall d :: date == Str(d) && d != "" && (|d| < 10 || ParseDate(d[..10]).None?) ==>
            g.date == Str(d))
      && (rfc == Null ==> g.taxId == "")
      && (forall s :: rfc == Str(s) ==> g.taxId == Upper(Strip(s)))
      && (total == Null ==> g.total == 0)
      && (forall s :: (total == Str(s) || total == Num(s)) && ParseDecimal(s).None? ==> g.total == 0)
      && (cfdi == Null || cfdi == Str("") ==> g.use == "")
      && (forall s :: cfdi == Str(s) ==> g.use == Strip(s))
  {
    var g := MakeSignature(date, rfc, total, cfdi).value;
    assert g.date == SignatureDate(date) && Some(g.taxId) == SignatureTaxId(rfc);
    assert g.total == CoerceTotal(total) && g.use == SignatureUse(cfdi);
    DateComponent(date);
    TaxIdComponent(rfc);
    CoerceTotalSpec(total);
    UseComponent(cfdi);
  }

  /** A numeric total is kept to the nearest cent: twice the distance between
      `g.total` hundredths and the exact amount is at most one unit of its
      last decimal place. */
  lemma SignatureTotalNearest(date: Value, rfc: Value, total: Value, cfdi: Value)
    requires MakeSignature(date, rfc, total, cfdi).Some?
    requires total != Null && ParseDecimal(ToText(total)).Some?
    ensures var x, g := ParseDecimal(ToText(total)).value, MakeSignature(date, rfc, total, cfdi).value;
      var exact: int, p: int := if x.negative then -100 * x.digits else 100 * x.digits, Pow10(x.scale);
      -p <= 2 * (g.total * p - exact) <= p
  {
    CoerceTotalSpec(total);
  }

  lemma TaxIdIgnoresCase(s: string)
    ensures SignatureTaxId(Str(Lower(s))) == SignatureTaxId(Str(s))
  {
    StripLower(s);
    UpperOfLower(Strip(s));
    assert |Lower(s)| == |s|;
  }

  lemma TaxIdIgnoresSpace(s: string)
    ensures SignatureTaxId(Str(Strip(s))) == SignatureTaxId(Str(s))
  {
    StripIdempotent(s);
  }

  /** The tax id is compared without regard to case or surrounding whitespace. */
  lemma SignatureIgnoresTaxIdCase(date: Value, s: string, total: Value, cfdi: Value)
    ensures MakeSignature(date, Str(Lower(s)), total, cfdi) == MakeSignature(date, Str(s), total, cfdi)
    ensures MakeSignature(date, Str(Strip(s)), total, cfdi) == MakeSignature(date, Str(s), total, cfdi)
  {
    TaxIdIgnoresCase(s);
    TaxIdIgnoresSpace(s);
  }
}
