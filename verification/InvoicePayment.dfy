/** Invoice payment batches (actenon/api/invoice_payment.py). */
module InvoicePayment {
  import opened Wrappers
  import opened CanonicalJson
  import opened Ordering

  // ------------------------------------------------------------ invoice ids

  function Collected(ids: seq<string>): (r: seq<string>) {
    if ids == [] then []
    else
      var rest := Collected(ids[1..]);
      if ids[0] == "" then rest else Insert(ids[0], rest)
  }

  /** Sorted, without duplicates or empty ids; None where nothing is left. */
  function NormalizeInvoiceIds(ids: seq<string>): (r: Option<seq<string>>) {
    if Collected(ids) == [] then None else Some(Collected(ids))
  }

  lemma {:induction false} CollectedExact(ids: seq<string>)
    ensures Ascending(Collected(ids))
    ensures forall x :: x in Collected(ids) <==> x in ids && x != ""
  {
    hide Insert, Ascending;
    if ids == [] {
      AscendingUpTo([]);
    } else {
      CollectedExact(ids[1..]);
      InsertKeepsOrder(ids[0], Collected(ids[1..]));
      assert ids == [ids[0]] + ids[1..];
    }
  }

  /** Two lists normalize alike exactly when they hold the same non-empty ids. */
  lemma NormalFormIff(a: seq<string>, b: seq<string>)
    ensures NormalizeInvoiceIds(a) == NormalizeInvoiceIds(b) <==>
            forall x :: x != "" ==> (x in a <==> x in b)
  {
    CollectedExact(a);
    CollectedExact(b);
    if forall x :: x != "" ==> (x in a <==> x in b) {
      AscendingUnique(Collected(a), Collected(b));
    } else {
      var x :| x != "" && !(x in a <==> x in b);
      assert x in Collected(a) <==> x !in Collected(b);
    }
  }

  /** A normal form is its own. */
  lemma NormalFormFixed(ids: seq<string>)
    ensures NormalizeInvoiceIds(ids).Some? ==>
              NormalizeInvoiceIds(NormalizeInvoiceIds(ids).value) == NormalizeInvoiceIds(ids)
    ensures NormalizeInvoiceIds(ids).None? <==> forall x :: x in ids ==> x == ""
  {
    CollectedExact(ids);
    if NormalizeInvoiceIds(ids).Some? {
      NormalFormIff(NormalizeInvoiceIds(ids).value, ids);
    } else {
      assert forall x :: x in ids && x != "" ==> x in Collected(ids);
    }
    if Collected(ids) != [] {
      assert Collected(ids)[0] in Collected(ids);
    }
  }

  // ------------------------------------------------------------- batch hash

  /** Two decimal digits from position `i`. */
  function TwoDigits(s: string, i: nat): int
    requires i + 2 <= |s|
  {
    10 * (s[i] as int - '0' as int) + s[i + 1] as int - '0' as int
  }

  predicate Leap(year: int) { year % 4 == 0 && (year % 100 != 0 || year % 400 == 0) }

  function DaysIn(year: int, month: int): int {
    if month == 2 then (if Leap(year) then 29 else 28) else if month in {4, 6, 9, 11} then 30 else 31
  }

  /** A calendar date written YYYY-MM-DD. */
  predicate CalendarDate(s: string) {
    && |s| == 10 && s[4] == '-' && s[7] == '-'
    && (forall i :: 0 <= i < 10 && i != 4 && i != 7 ==> IsDigit(s[i]))
    && var year, month, day := 100 * TwoDigits(s, 0) + TwoDigits(s, 2), TwoDigits(s, 5), TwoDigits(s, 8);
       1 <= year && 1 <= month <= 12 && 1 <= day <= DaysIn(year, month)
  }

  /** A date object gives its ISO text, and so does a datetime, which is a date too; a
      text must be a calendar date. */
  datatype PaymentDate = OfDate(iso: string) | OfText(text: string)

  function NormalizePaymentDate(d: PaymentDate): (r: Option<string>) {
    match d
    case OfDate(iso) => Some(iso)
    case OfText(text) => if CalendarDate(text) then Some(text) else None
  }

  datatype Payment = Payment(
    payer: string, supplier: string, account: string, invoiceIds: seq<string>, amountMinor: int,
    currency: string, paymentDate: PaymentDate, batchId: string)

  function Ids(ids: seq<string>): Json { Arr(seq(|ids|, i requires 0 <= i < |ids| => Str(ids[i]))) }

  function HashInput(p: Payment, ids: seq<string>, date: string): Json {
    Obj(map["payer_entity_id" := Str(p.payer), "supplier_id" := Str(p.supplier),
            "bank_account_reference" := Str(p.account),
            "invoice_ids" := Ids(ids), "amount_minor" := Int(p.amountMinor), "currency" := Str(p.currency),
            "payment_date" := Str(date), "payment_batch_id" := Str(p.batchId)])
  }

  /** The digest of canonical forms, and of which values it can be taken. */
  datatype Digester = Digester(h: Json -> string, fits: Json -> bool)

  /** None where it raises. */
  function BatchHash(x: Digester, p: Payment): (r: Option<string>) {
    var ids, date := NormalizeInvoiceIds(p.invoiceIds), NormalizePaymentDate(p.paymentDate);
    if ids.None? || date.None? || !x.fits(HashInput(p, ids.value, date.value)) then None
    else Some("batch_" + x.h(HashInput(p, ids.value, date.value)))
  }

  lemma IdsInjective(a: seq<string>, b: seq<string>)
    requires Ids(a) == Ids(b)
    ensures a == b
  {
    assert |Ids(a).items| == |Ids(b).items|;
    assert forall i :: 0 <= i < |a| ==> Ids(a).items[i] == Str(a[i]) && Ids(b).items[i] == Str(b[i]);
  }

  lemma HashInputInjective(p: Payment, q: Payment, i: seq<string>, j: seq<string>, d: string, e: string)
    requires HashInput(p, i, d) == HashInput(q, j, e)
    ensures p.payer == q.payer && p.supplier == q.supplier && p.account == q.account && p.amountMinor == q.amountMinor
    ensures p.currency == q.currency && p.batchId == q.batchId && i == j && d == e
  {
    hide Ids;
    var x, y := HashInput(p, i, d).fields, HashInput(q, j, e).fields;
    assert x["payer_entity_id"] == y["payer_entity_id"] && x["supplier_id"] == y["supplier_id"];
    assert x["bank_account_reference"] == y["bank_account_reference"] && x["invoice_ids"] == y["invoice_ids"];
    assert x["amount_minor"] == y["amount_minor"] && x["currency"] == y["currency"];
    assert x["payment_date"] == y["payment_date"] && x["payment_batch_id"] == y["payment_batch_id"];
    IdsInjective(i, j);
  }

  /** The same payment, up to order, repetition and empty ids. */
  ghost predicate SamePayment(p: Payment, q: Payment) {
    && p.payer == q.payer && p.supplier == q.supplier && p.account == q.account && p.amountMinor == q.amountMinor
    && p.currency == q.currency && p.batchId == q.batchId
    && NormalizePaymentDate(p.paymentDate) == NormalizePaymentDate(q.paymentDate)
    && forall x :: x != "" ==> (x in p.invoiceIds <==> x in q.invoiceIds)
  }

  /** Two batches hash alike exactly when they are the same payment. */
  lemma BatchHashIff(x: Digester, p: Payment, q: Payment)
    requires CollisionFree(x.h) && BatchHash(x, p).Some? && BatchHash(x, q).Some?
    ensures BatchHash(x, p) == BatchHash(x, q) <==> SamePayment(p, q)
  {
    hide NormalizeInvoiceIds, HashInput;
    NormalFormIff(p.invoiceIds, q.invoiceIds);
    var i, j := NormalizeInvoiceIds(p.invoiceIds).value, NormalizeInvoiceIds(q.invoiceIds).value;
    var d, e := NormalizePaymentDate(p.paymentDate).value, NormalizePaymentDate(q.paymentDate).value;
    if BatchHash(x, p) == BatchHash(x, q) {
      assert BatchHash(x, p).value[6..] == x.h(HashInput(p, i, d));
      assert BatchHash(x, q).value[6..] == x.h(HashInput(q, j, e));
      HashInputInjective(p, q, i, j, d, e);
    }
    if SamePayment(p, q) {
      SameInput(p, q, i, d);
    }
  }

  lemma SameInput(p: Payment, q: Payment, ids: seq<string>, date: string)
    requires p.payer == q.payer && p.supplier == q.supplier && p.account == q.account && p.amountMinor == q.amountMinor
    requires p.currency == q.currency && p.batchId == q.batchId
    ensures HashInput(p, ids, date) == HashInput(q, ids, date)
  {
  }

  // ---------------------------------------------------------------- payload

  /** The action parameters of a payload, as a payment and the hash stored beside it. */
  datatype Parameters = Parameters(payment: Payment, batchHash: string)

  /** What the idempotency key is taken over, whether or not a batch hash is supplied. */
  function KeyInput(p: Payment, ids: seq<string>): Json {
    Obj(map["payment_batch_id" := Str(p.batchId), "invoice_ids" := Ids(ids), "amount_minor" := Int(p.amountMinor),
            "currency" := Str(p.currency), "payer_entity_id" := Str(p.payer), "supplier_id" := Str(p.supplier)])
  }

  /** None where building the payload raises. */
  function BuildParameters(x: Digester, p: Payment, override: Option<string>): (r: Option<Parameters>) {
    var ids, date := NormalizeInvoiceIds(p.invoiceIds), NormalizePaymentDate(p.paymentDate);
    if ids.None? || date.None? || !x.fits(KeyInput(p, ids.value)) then None
    else
      var stored := p.(invoiceIds := ids.value, paymentDate := OfText(date.value));
      if override.Some? && override.value != "" then Some(Parameters(stored, override.value))
      else
        var computed := BatchHash(x, stored);
        if computed.None? then None else Some(Parameters(stored, computed.value))
  }

  /** Some id is not empty. */
  ghost predicate HasId(p: Payment) { exists x :: x in p.invoiceIds && x != "" }

  ghost predicate Overridden(override: Option<string>) { override.Some? && override.value != "" }

  /** The date as it is written into the payload. */
  function DateText(d: PaymentDate): string { if d.OfDate? then d.iso else d.text }

  /** Building raises exactly when no id is non-empty, a date text is no calendar date, the
      hash has to be computed from a date object that does not print as one, or what has to
      be hashed is beyond the limits of canonical forms. */
  lemma BuildRaisesIff(x: Digester, p: Payment, override: Option<string>)
    ensures var ids, date := Collected(p.invoiceIds), DateText(p.paymentDate);
            BuildParameters(x, p, override).None? <==>
            || !HasId(p) || (p.paymentDate.OfText? && !CalendarDate(date)) || !x.fits(KeyInput(p, ids))
            || (!Overridden(override) && (!CalendarDate(date) || !x.fits(HashInput(p, ids, date))))
  {
    hide HashInput, KeyInput, CalendarDate, Collected;
    NormalFormFixed(p.invoiceIds);
    var ids, date := Collected(p.invoiceIds), DateText(p.paymentDate);
    SameInput(p.(invoiceIds := ids, paymentDate := OfText(date)), p, ids, date);
  }

  /** A datetime: its batch can be hashed, but no payload can be built from it unless a
      hash is supplied, and the hash of that payload cannot be recomputed. */
  lemma DatetimeCannotBuild(x: Digester, p: Payment, hash: string)
    requires p.paymentDate == OfDate("2024-01-31T00:00:00") && HasId(p) && hash != "" && forall v :: x.fits(v)
    ensures BatchHash(x, p).Some? && BuildParameters(x, p, None).None?
    ensures BuildParameters(x, p, Some(hash)).Some?
    ensures BatchHash(x, BuildParameters(x, p, Some(hash)).value.payment).None?
  {
    hide HashInput, NormalizeInvoiceIds;
    NormalFormFixed(p.invoiceIds);
    assert |"2024-01-31T00:00:00"| != 10;
    hide CalendarDate;
    BuildRaisesIff(x, p, None);
    BuildRaisesIff(x, p, Some(hash));
  }

  /** Recomputing the hash from a payload's own parameters returns the stored one exactly
      when none was supplied, or when the one supplied is the hash of the payment as it
      was given and the date, as written, is a calendar date. */
  lemma RecomputeIff(x: Digester, p: Payment, override: Option<string>)
    requires BuildParameters(x, p, override).Some?
    ensures var built := BuildParameters(x, p, override).value;
            BatchHash(x, built.payment) == Some(built.batchHash) <==>
            || !Overridden(override)
            || (override == BatchHash(x, p) && CalendarDate(NormalizePaymentDate(p.paymentDate).value))
  {
    hide HashInput, NormalizeInvoiceIds, CalendarDate;
    var built := BuildParameters(x, p, override).value;
    NormalFormFixed(p.invoiceIds);
    SameInput(built.payment, p, built.payment.invoiceIds, NormalizePaymentDate(p.paymentDate).value);
  }
}
