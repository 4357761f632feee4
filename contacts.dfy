/**
  The contact list of the invitation page (`renderContacts`): one row per
  contact, whose link dials the phone number with everything but digits and
  `+` removed. The contact table itself is a parameter.
 */
module Contacts {
  import opened Text
  import opened Seqs
  import opened Dom

  /** The characters a `tel:` target keeps: the complement of the class `[^0-9+]`. */
  predicate IsTelChar(c: char) {
    IsDigit(c) || c == '+'
  }

  /** `phone.replace(/[^0-9+]/g, '')`. */
  function TelDigits(phone: string): string {
    Filter(phone, IsTelChar)
  }

  /**
    The dialled number keeps exactly the digits and `+` signs of the phone
    string, each as often as it occurs there, in their original order, and
    nothing else.
   */
  lemma TelDigitsKeepsExactly(phone: string)
    ensures forall c :: c in TelDigits(phone) ==> IsTelChar(c)
    ensures forall c :: IsTelChar(c) ==> multiset(TelDigits(phone))[c] == multiset(phone)[c]
    ensures forall c :: !IsTelChar(c) ==> c !in TelDigits(phone)
    ensures IsSubsequence(TelDigits(phone), phone)
  {
    FilterShape(phone, IsTelChar);
    forall c | !IsTelChar(c) ensures c !in TelDigits(phone) {
      assert multiset(TelDigits(phone))[c] == 0;
    }
  }

  /** Sanitising an already sanitised number changes nothing. */
  lemma TelDigitsIdempotent(phone: string)
    ensures TelDigits(TelDigits(phone)) == TelDigits(phone)
  {
    FilterIdempotent(phone, IsTelChar);
  }

  /** A phone string is left as it is exactly when it holds only digits and `+`. */
  lemma TelDigitsUnchanged(phone: string)
    ensures TelDigits(phone) == phone <==> forall c :: c in phone ==> IsTelChar(c)
  {
    FilterUnchanged(phone, IsTelChar);
  }

  /** One entry of the contact table; `labelText` is the entry's `label`, a reserved word in Dafny. */
  datatype Contact = Contact(labelText: string, name: string, phone: string)

  /** One rendered `li`: a text span, then a link with its target and its visible text. */
  datatype Row = Row(text: string, href: string, linkText: string)

  /** The row for a contact: the span reads "label name"; the link dials the sanitised number and shows the number as written. */
  function RowFor(c: Contact): Row {
    Row(c.labelText + " " + c.name, "tel:" + TelDigits(c.phone), c.phone)
  }

  /**
    `renderContacts`: when the list element exists, appends one row per
    contact, in table order; otherwise nothing happens.
   */
  method RenderContacts(list: Container?<Row>, contacts: seq<Contact>)
    modifies list
    ensures list != null ==>
      list.children == old(list.children) + seq(|contacts|, k requires 0 <= k < |contacts| => RowFor(contacts[k]))
  {
    if list == null {
      return;
    }
    for k := 0 to |contacts|
      invariant list.children == old(list.children) + seq(k, j requires 0 <= j < k => RowFor(contacts[j]))
    {
      var c := contacts[k];
      list.Append(RowFor(c));
    }
  }
}
