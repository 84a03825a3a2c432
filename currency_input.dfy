/** The new-transaction form (app/new-transaction.tsx): the currency-input
    parser, the amount and attachment state, and the type options offered
    to the radio group. */
module NewTransaction {
  import opened Common

  /** `input.replace(/\D/g, '')`: the decimal digits of the input, in order. */
  function KeepDigits(s: string): (r: string)
    ensures AllDigits(r) && |r| <= |s|
  {
    if s == [] then []
    else if IsDigit(s[0]) then [s[0]] + KeepDigits(s[1..])
    else KeepDigits(s[1..])
  }

  /** `parseInt(numbers) || 0`: the integer the kept digits denote, 0 when there are none. */
  function ParseCurrencyInput(input: string): (n: nat)
    ensures AllDigits(input) ==> n == DigitsValue(input)
    ensures (forall i :: 0 <= i < |input| ==> !IsDigit(input[i])) ==> n == 0
  {
    assert AllDigits(input) ==> KeepDigits(input) == input by {
      if AllDigits(input) { KeepDigitsOfDigits(input); }
    }
    assert (forall i :: 0 <= i < |input| ==> !IsDigit(input[i])) ==> KeepDigits(input) == [] by {
      if forall i :: 0 <= i < |input| ==> !IsDigit(input[i]) { KeepDigitsNone(input); }
    }
    DigitsValue(KeepDigits(input))
  }

  lemma {:induction false} KeepDigitsAppend(a: string, b: string)
    ensures KeepDigits(a + b) == KeepDigits(a) + KeepDigits(b)
  {
    if a != [] {
      assert (a + b)[1..] == a[1..] + b;
      KeepDigitsAppend(a[1..], b);
    } else {
      assert a + b == b;
    }
  }

  lemma {:induction false} KeepDigitsOfDigits(s: string)
    requires AllDigits(s)
    ensures KeepDigits(s) == s
  {
    if s != [] {
      KeepDigitsOfDigits(s[1..]);
    }
  }

  lemma {:induction false} KeepDigitsNone(s: string)
    requires forall i :: 0 <= i < |s| ==> !IsDigit(s[i])
    ensures KeepDigits(s) == []
  {
    if s != [] {
      KeepDigitsNone(s[1..]);
    }
  }

  /** An input with no decimal digit parses to 0. */
  lemma NoDigitsParsesToZero(s: string)
    requires forall i :: 0 <= i < |s| ==> !IsDigit(s[i])
    ensures ParseCurrencyInput(s) == 0
  {
    KeepDigitsNone(s);
  }

  /** Inserting a non-digit character anywhere (a minus sign, a comma, a currency
      symbol) leaves the parsed value unchanged. */
  lemma NonDigitIgnored(a: string, c: char, b: string)
    requires !IsDigit(c)
    ensures ParseCurrencyInput(a + [c] + b) == ParseCurrencyInput(a + b)
  {
    KeepDigitsAppend(a + [c], b);
    KeepDigitsAppend(a, [c]);
    KeepDigitsAppend(a, b);
    assert KeepDigits([c]) == [];
    assert KeepDigits(a) + [] == KeepDigits(a);
  }

  /** A minus sign is stripped like any other non-digit: the result is never
      the negation of the digits' value. */
  lemma MinusSignIgnored(s: string)
    ensures ParseCurrencyInput("-" + s) == ParseCurrencyInput(s)
  {
    NonDigitIgnored([], '-', s);
    assert [] + ['-'] + s == "-" + s;
    assert [] + s == s;
  }

  /** The decimal rendering of `n` parses back to `n`. */
  lemma ParseDecimal(n: nat)
    ensures ParseCurrencyInput(Decimal(n)) == n
  {
    KeepDigitsOfDigits(Decimal(n));
    DecimalRoundTrip(n);
  }

  /** Typing more characters shifts the value already typed by one decimal
      place per digit typed and adds the new digits' value. */
  lemma ParseAppend(a: string, b: string)
    ensures ParseCurrencyInput(a + b)
            == ParseCurrencyInput(a) * Pow10(|KeepDigits(b)|) + ParseCurrencyInput(b)
  {
    KeepDigitsAppend(a, b);
    DigitsValueAppend(KeepDigits(a), KeepDigits(b));
  }

  // ---------------------------------------------------------------------------
  // Form state

  /** An entry of `transactionTypeOptions`: the value sent on selection and its label. */
  datatype TypeOption = TypeOption(value: string, caption: string)

  function TransactionTypeOptions(): (options: seq<TypeOption>)
    ensures |options| == 2
    ensures forall i, j :: 0 <= i < j < |options| ==> options[i].value != options[j].value
  {
    [TypeOption("credit", "Crédito"), TypeOption("debit", "Débito")]
  }

  /** What the amount input shows: the initial placeholder 'R$ 0,00', or
      `formatCurrency` applied to a number (its text is not part of this model). */
  datatype Display = InitialDisplay | Formatted(amount: nat)

  /** The outcome of the document picker. */
  datatype PickerResult = Canceled | Picked(fileName: string)

  class NewTransactionForm {
    /** `transactionType`: undefined until a radio item is pressed; the value is cast
        without checking, so any string can arrive here. */
    var transactionType: Option<string>
    var amount: nat
    var displayValue: Display
    var attachment: Option<PickerResult>

    /** The display always shows the amount held. */
    predicate Valid()
      reads this
    {
      && (displayValue == InitialDisplay ==> amount == 0)
      && (displayValue.Formatted? ==> displayValue.amount == amount)
      && (attachment.Some? ==> attachment.value.Picked?)
    }

    constructor ()
      ensures Valid()
      ensures transactionType == None && amount == 0 && displayValue == InitialDisplay
      ensures attachment == None
    {
      transactionType := None;
      amount := 0;
      displayValue := InitialDisplay;
      attachment := None;
    }

    method HandleTransactionTypeChange(value: string)
      requires Valid()
      modifies this`transactionType
      ensures Valid() && transactionType == Some(value)
    {
      transactionType := Some(value);
    }

    /** `handleAmountChange`: the amount becomes exactly the parsed value and the
        display shows it. */
    method HandleAmountChange(text: string)
      requires Valid()
      modifies this`amount, this`displayValue
      ensures Valid()
      ensures amount == ParseCurrencyInput(text)
      ensures displayValue == Formatted(amount)
    {
      var numericValue := ParseCurrencyInput(text);
      amount := numericValue;
      displayValue := Formatted(numericValue);
    }

    /** `handlePickDocument`: a picked document is stored; a cancelled pick, or a
        picker that throws (`picked == None`), leaves the attachment as it was. */
    method HandlePickDocument(picked: Option<PickerResult>)
      requires Valid()
      modifies this`attachment
      ensures Valid()
      ensures picked.Some? && picked.value.Picked? ==> attachment == picked
      ensures picked.None? || picked.value.Canceled? ==> attachment == old(attachment)
    {
      if picked.Some? {
        var result := picked.value;
        if !result.Canceled? {
          attachment := Some(result);
        }
      }
    }

    method HandleRemoveAttachment()
      requires Valid()
      modifies this`attachment
      ensures Valid() && attachment == None
    {
      attachment := None;
    }

    /** `handleSubmit`: no validation and no remote call; it only logs the type and the
        amount, which is what it returns here. */
    method HandleSubmit() returns (logged: (Option<string>, nat))
      requires Valid()
      ensures logged == (transactionType, amount)
    {
      logged := (transactionType, amount);
    }
  }
}
