/**
 * The order status. The status column is free text and both status comboboxes
 * accept typed input, so besides the five values the administrator combobox
 * offers there is a fallback holding any other text.
 */
module OrderStatus {

  const CREATED := "создан"
  const PROCESSING := "в обработке"
  const WITH_COURIER := "у курьера"
  const DELIVERED := "доставлен"
  const CANCELLED := "отменен"

  /** The five statuses in the order the administrator's combobox lists them. */
  const KNOWN: seq<string> := [CREATED, PROCESSING, WITH_COURIER, DELIVERED, CANCELLED]

  datatype Status = Created | Processing | WithCourier | Delivered | Cancelled | Other(text: string)
  {
    /** A fallback never holds the text of one of the five named statuses. */
    predicate WellFormed() {
      Other? ==> text !in KNOWN
    }

    /** The statuses a courier may claim an order in. */
    predicate Claimable() {
      this == Created || this == Processing
    }
  }

  /** The text stored in the status column. */
  function Name(s: Status): string {
    match s
    case Created => CREATED
    case Processing => PROCESSING
    case WithCourier => WITH_COURIER
    case Delivered => DELIVERED
    case Cancelled => CANCELLED
    case Other(t) => t
  }

  /** Reads a status column value (or a combobox entry). */
  function Parse(t: string): (s: Status)
    ensures s.WellFormed()
    ensures Name(s) == t
  {
    if t == CREATED then Created
    else if t == PROCESSING then Processing
    else if t == WITH_COURIER then WithCourier
    else if t == DELIVERED then Delivered
    else if t == CANCELLED then Cancelled
    else Other(t)
  }

  /** Writing a well-formed status and reading it back gives the same status. */
  lemma ParseName(s: Status)
    requires s.WellFormed()
    ensures Parse(Name(s)) == s
  {
    if s.Other? {
      assert s.text != KNOWN[0] && s.text != KNOWN[1] && s.text != KNOWN[2];
      assert s.text != KNOWN[3] && s.text != KNOWN[4];
    }
  }

  /** Two well-formed statuses are equal exactly when their texts are, so comparing texts as the source does is comparing statuses. */
  lemma NameInjective(s: Status, t: Status)
    requires s.WellFormed() && t.WellFormed()
    ensures Name(s) == Name(t) <==> s == t
  {
    ParseName(s);
    ParseName(t);
  }

  /** The claim guard `status in ("создан", "в обработке")`, stated on the text. */
  lemma ClaimableByName(s: Status)
    requires s.WellFormed()
    ensures s.Claimable() <==> Name(s) == CREATED || Name(s) == PROCESSING
  {
    ParseName(s);
  }
}
