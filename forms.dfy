/**
 * What the two "add" dialogs share: the outcome of pressing save, and the
 * `order` a new chapter or character receives, one more than the number of
 * rows the client currently holds, as decimal text.
 */
module Forms {
  import opened Strings

  /** Pressing save either shows an error toast or sends a creation body. */
  datatype SaveOutcome<B> = Rejected(toast: string) | Send(body: B)

  /** `(rows.length + 1).toString()`: the decimal text of `count + 1`. */
  function NextOrder(count: nat): (r: string)
    ensures AllDigits(r) && ParseDecimal(r) == count + 1
    ensures r[0] != '0'
  {
    ParseDecimalString(count + 1);
    DecimalString(count + 1)
  }

  /** Different row counts give different orders. */
  lemma NextOrderInjective(a: nat, b: nat)
    requires NextOrder(a) == NextOrder(b)
    ensures a == b
  {
    DecimalStringInjective(a + 1, b + 1);
  }
}
