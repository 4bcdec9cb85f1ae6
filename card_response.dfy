/** The card view handed to clients: the card with its number masked. */
module CardResponses {
  import opened Domain

  datatype CardResponse = CardResponse(id: int, maskedNumber: string, expirationDate: Date,
                                       status: CardStatus, balance: int)

  const Placeholder: string := "****"
  const MaskPrefix: string := "**** **** **** "

  /** maskCardNumber; `None` stands for a null number. */
  function MaskCardNumber(number: Option<string>): (r: string)
    ensures number.None? || |number.value| < 4 ==> r == Placeholder
    ensures number.Some? && |number.value| >= 4 ==>
              |r| == 19 && r[..15] == MaskPrefix && r[15..] == number.value[|number.value| - 4..]
  {
    if number.None? || |number.value| < 4 then Placeholder
    else MaskPrefix + number.value[|number.value| - 4..]
  }

  /** The mask reveals nothing but the last four characters: two numbers that end alike
      mask alike, and every number shorter than four characters masks alike. */
  lemma MaskRevealsOnlyLastFour(a: string, b: string)
    ensures (|a| < 4 && |b| < 4) ==> MaskCardNumber(Some(a)) == MaskCardNumber(Some(b))
    ensures (|a| >= 4 && |b| >= 4 && a[|a| - 4..] == b[|b| - 4..]) ==>
              MaskCardNumber(Some(a)) == MaskCardNumber(Some(b))
  {
  }

  /** Every character of a mask is a mask symbol or one of the number's last four. */
  lemma MaskedCharacters(number: string, i: int)
    requires 0 <= i < |MaskCardNumber(Some(number))|
    ensures var m := MaskCardNumber(Some(number));
            m[i] == '*' || m[i] == ' ' || (|number| >= 4 && i >= 15 && m[i] == number[|number| - 19 + i])
  {
    if |number| >= 4 && i >= 15 {
      var m := MaskCardNumber(Some(number));
      assert m[i] == m[15..][i - 15];
    }
  }

  /** CardResponse.from: copies id, expiration date, status and balance and exposes the
      number only masked. */
  function From(card: Card): (r: CardResponse)
    ensures r.id == card.id && r.expirationDate == card.expirationDate
    ensures r.status == card.status && r.balance == card.balance
    ensures r.maskedNumber == MaskCardNumber(Some(card.number))
  {
    CardResponse(card.id, MaskCardNumber(Some(card.number)), card.expirationDate,
                 card.status, card.balance)
  }

  /** Cards that differ only in their numbers' leading characters have equal responses. */
  lemma FromHidesLeadingDigits(c1: Card, c2: Card)
    requires c1.(number := c2.number) == c2
    requires |c1.number| >= 4 && |c2.number| >= 4
    requires c1.number[|c1.number| - 4..] == c2.number[|c2.number| - 4..]
    ensures From(c1) == From(c2)
  {
    MaskRevealsOnlyLastFour(c1.number, c2.number);
  }

  /** Worked examples: a full card number, a three-character number and a null number. */
  lemma MaskExamples()
    ensures MaskCardNumber(Some("4111111111111111")) == "**** **** **** 1111"
    ensures MaskCardNumber(Some("123")) == "****"
    ensures MaskCardNumber(None) == "****"
  {
    assert "4111111111111111"[12..] == "1111";
  }
}
