/**
 * The two-step payment dialog (components/payment-dialog.tsx): step 1
 * collects the card details, reformatting each field as it is typed, and
 * validates them; step 2 confirms and creates a fixed-amount transaction
 * for the semester.
 */
module Payment {
  import opened Types
  import opened Text

  /** The fixed amount every payment is made for. */
  const TuitionAmount: int := 75000

  // ---------------------------------------------------------------------------
  // Card number formatting
  // ---------------------------------------------------------------------------

  const MaxCardDigits: nat := 16
  const GroupSize: nat := 4

  /** A digit string cut into groups of four, the last possibly shorter. */
  function Chunks(m: string): (r: seq<string>)
    ensures m != [] ==> |r| >= 1
    decreases |m|
  {
    if m == [] then []
    else if |m| <= GroupSize then [m]
    else [m[..GroupSize]] + Chunks(m[GroupSize..])
  }

  /**
   * The first match of `/\d{4,16}/g` in the digits of the input: its first
   * sixteen digits, or nothing when it has fewer than four.
   */
  function CardMatch(value: string): (r: string)
    ensures AllDigits(r) && |r| <= MaxCardDigits
    ensures r == [] <==> |DigitsOf(value)| < GroupSize
    ensures r != [] ==>
      && |r| == (if |DigitsOf(value)| <= MaxCardDigits then |DigitsOf(value)| else MaxCardDigits)
      && r == DigitsOf(value)[..|r|]
  {
    var v := DigitsOf(value);
    if |v| < GroupSize then [] else if |v| <= MaxCardDigits then v else v[..MaxCardDigits]
  }

  /**
   * What `formatCardNumber` returns. With four digits or more it is the first
   * (up to sixteen) digits in groups of four: the spaces come off to give
   * exactly those digits, and it is at most 19 characters long.  With fewer
   * the input is kept.
   */
  function CardNumberFormat(value: string): (r: string)
    ensures var d := DigitsOf(value);
      && (|d| < GroupSize ==> r == value)
      && (|d| >= GroupSize ==>
            && RemoveSpaces(r) == d[..if |d| <= MaxCardDigits then |d| else MaxCardDigits]
            && DigitsOf(r) == RemoveSpaces(r)
            && |r| <= 19)
  {
    var m := CardMatch(value);
    if m == [] then value
    else
      JoinedChunks(m);
      Join(Chunks(m), " ")
  }

  lemma ChunksStep(t: string)
    requires t != []
    ensures var k := if |t| <= GroupSize then |t| else GroupSize;
      Chunks(t) == [t[..k]] + Chunks(t[k..])
  {
    if |t| <= GroupSize {
      assert t[..|t|] == t && t[|t|..] == [];
    }
  }

  /**
   * `formatCardNumber`: strip to digits, take the first match, push its
   * four-digit parts one by one and join them with spaces; with no part the
   * input comes back unchanged.
   */
  method FormatCardNumber(value: string) returns (formatted: string)
    ensures formatted == CardNumberFormat(value)
  {
    var m := CardMatch(value);
    var parts: seq<string> := [];
    var i := 0;
    var len := |m|;
    while i < len
      invariant 0 <= i <= len + GroupSize - 1
      invariant i < len ==> parts + Chunks(m[i..]) == Chunks(m)
      invariant i >= len ==> parts == Chunks(m)
      decreases len - i
    {
      var end := if i + GroupSize <= len then i + GroupSize else len;
      ChunksStep(m[i..]);
      assert m[i..][..end - i] == m[i..end];
      assert m[i..][end - i..] == m[end..];
      parts := parts + [m[i..end]];
      i := i + GroupSize;
      if end == len {
        assert m[end..] == [];
      }
    }
    if len == 0 {
      formatted := value;
    } else {
      formatted := Join(parts, " ");
    }
  }

  /**
   * Joining the groups of a digit string: removing the spaces, or keeping
   * only the digits, gives the digits back, and the spaces add one
   * character per group after the first.
   */
  lemma {:induction false} JoinedChunks(m: string)
    requires AllDigits(m) && m != []
    ensures RemoveSpaces(Join(Chunks(m), " ")) == m
    ensures DigitsOf(Join(Chunks(m), " ")) == m
    ensures |Join(Chunks(m), " ")| == |m| + (|m| - 1) / GroupSize
    decreases |m|
  {
    if |m| <= GroupSize {
      RemoveSpacesDigits(m);
      DigitsOfDigits(m);
    } else {
      var head := m[..GroupSize];
      var tail := m[GroupSize..];
      JoinedChunks(tail);
      JoinCons(head, Chunks(tail), " ");
      GroupThenRest(head, Join(Chunks(tail), " "));
      assert m == head + tail;
      assert (|m| - 1) / GroupSize == (|tail| - 1) / GroupSize + 1;
    }
  }

  /** A group of digits and a space before the rest: both strippings drop just the space. */
  lemma GroupThenRest(head: string, rest: string)
    requires AllDigits(head)
    ensures RemoveSpaces(head + " " + rest) == head + RemoveSpaces(rest)
    ensures DigitsOf(head + " " + rest) == head + DigitsOf(rest)
  {
    SpaceStripped();
    var spaced := head + " ";
    RemoveSpacesAppend(head, " ");
    RemoveSpacesDigits(head);
    assert RemoveSpaces(spaced) == head;
    RemoveSpacesAppend(spaced, rest);
    DigitsOfAppend(head, " ");
    DigitsOfDigits(head);
    assert DigitsOf(spaced) == head;
    DigitsOfAppend(spaced, rest);
  }

  lemma SpaceStripped()
    ensures RemoveSpaces(" ") == [] && DigitsOf(" ") == []
  {
    assert " "[1..] == [];
  }

  /** Formatting a formatted card number changes nothing. */
  lemma CardNumberFormatIdempotent(value: string)
    ensures CardNumberFormat(CardNumberFormat(value)) == CardNumberFormat(value)
  {
    var m := CardMatch(value);
    if m != [] {
      JoinedChunks(m);
      var r := Join(Chunks(m), " ");
      assert DigitsOf(r) == m;
      assert CardMatch(r) == m;
    }
  }

  /** Sixteen typed digits, however spaced, pass the length check once formatted. */
  lemma FullCardNumberPasses(value: string)
    requires |DigitsOf(value)| >= MaxCardDigits
    ensures |RemoveSpaces(CardNumberFormat(value))| == MaxCardDigits
  {
  }

  // ---------------------------------------------------------------------------
  // The other fields
  // ---------------------------------------------------------------------------

  /** The expiry handler: a slash is appended once the month's two characters are in. */
  function ExpiryInput(value: string): (r: string)
    ensures |value| == 2 && '/' !in value ==> r == value + "/"
    ensures !(|value| == 2 && '/' !in value) ==> r == value
  {
    if |value| == 2 && '/' !in value then value + "/" else value
  }

  /** The CVC handler keeps only the digits. */
  function CvcInput(value: string): (r: string)
    ensures AllDigits(r) && |r| <= |value|
  {
    DigitsOf(value)
  }

  /** The name handler uppercases. */
  function NameInput(value: string): (r: string)
    ensures |r| == |value|
  {
    Upper(value)
  }

  /** The handlers settle: applying one to its own output changes nothing more. */
  lemma InputsSettle(value: string)
    ensures CvcInput(CvcInput(value)) == CvcInput(value)
    ensures NameInput(NameInput(value)) == NameInput(value)
    ensures ExpiryInput(ExpiryInput(value)) == ExpiryInput(value)
  {
    DigitsOfDigits(DigitsOf(value));
    UpperIdempotent(value);
    if |value| == 2 && '/' !in value {
      assert (value + "/")[2] == '/';
    }
  }

  /**
   * `/^\d{2}\/\d{2}$/`: two digits, a slash, two digits, and nothing else.
   * The slash of an accepted expiry is the one the expiry handler appends
   * once the month's two digits are typed.
   */
  function ExpiryShape(e: string): (r: bool)
    ensures r ==> |e| == 5 && ExpiryInput(e[..2]) == e[..3]
  {
    if |e| == 5 && IsDigit(e[0]) && IsDigit(e[1]) && e[2] == '/' && IsDigit(e[3]) && IsDigit(e[4]) then
      assert '/' !in e[..2] by { assert e[..2] == [e[0], e[1]]; }
      true
    else false
  }

  /** The card details as typed. */
  datatype CardDetails = CardDetails(number: string, name: string, expiry: string, cvc: string)

  /** The outcome of `validateCardDetails`, with the one message it shows. */
  datatype Validation = Accepted | Rejected(message: string)

  const NumberMessage: string := "Номер карты должен содержать 16 цифр"
  const NameMessage: string := "Введите имя владельца карты"
  const ExpiryMessage: string := "Срок действия должен быть в формате MM/YY"
  const CvcMessage: string := "CVC код должен содержать 3 цифры"

  predicate NumberOk(c: CardDetails) { |RemoveSpaces(c.number)| == MaxCardDigits }
  predicate NameOk(c: CardDetails) { c.name != [] }
  predicate ExpiryOk(c: CardDetails) { ExpiryShape(c.expiry) }
  predicate CvcOk(c: CardDetails) { |c.cvc| == 3 }

  /** `validateCardDetails`: the checks in order, stopping at the first failure. */
  function ValidateCardDetails(c: CardDetails): (r: Validation)
    ensures r == Accepted <==> NumberOk(c) && NameOk(c) && ExpiryOk(c) && CvcOk(c)
    ensures !NumberOk(c) ==> r == Rejected(NumberMessage)
    ensures NumberOk(c) && !NameOk(c) ==> r == Rejected(NameMessage)
    ensures NumberOk(c) && NameOk(c) && !ExpiryOk(c) ==> r == Rejected(ExpiryMessage)
    ensures NumberOk(c) && NameOk(c) && ExpiryOk(c) && !CvcOk(c) ==> r == Rejected(CvcMessage)
  {
    if !NumberOk(c) then Rejected(NumberMessage)
    else if !NameOk(c) then Rejected(NameMessage)
    else if !ExpiryOk(c) then Rejected(ExpiryMessage)
    else if !CvcOk(c) then Rejected(CvcMessage)
    else Accepted
  }

  /** The expiry check reads only the shape: month 13 passes. */
  lemma ExpiryNoMonthRange()
    ensures ExpiryShape("13/99")
  {
  }

  /**
   * Filling the form through its handlers: sixteen digits, a name, a month
   * and year typed as four digits with the slash added by the handler, and
   * three CVC digits pass validation.
   */
  lemma HandlersProduceValidCard(number: string, name: string, month: string, year: string, cvc: string)
    requires |DigitsOf(number)| >= MaxCardDigits && name != []
    requires |month| == 2 && AllDigits(month) && |year| == 2 && AllDigits(year)
    requires |DigitsOf(cvc)| == 3
    ensures ValidateCardDetails(CardDetails(CardNumberFormat(number), NameInput(name),
      ExpiryInput(month) + year, CvcInput(cvc))) == Accepted
  {
    FullCardNumberPasses(number);
    ExpiryTyped(month, year);
    var c := CardDetails(CardNumberFormat(number), NameInput(name), ExpiryInput(month) + year, CvcInput(cvc));
    assert NumberOk(c) && NameOk(c) && ExpiryOk(c) && CvcOk(c);
  }

  /** Two month digits through the expiry handler, then two year digits, make an accepted expiry. */
  lemma ExpiryTyped(month: string, year: string)
    requires |month| == 2 && AllDigits(month) && |year| == 2 && AllDigits(year)
    ensures ExpiryShape(ExpiryInput(month) + year)
  {
    assert '/' !in month by {
      assert !IsDigit('/');
    }
    var e := month + "/" + year;
    assert e[0] == month[0] && e[1] == month[1] && e[2] == '/' && e[3] == year[0] && e[4] == year[1];
  }

  // ---------------------------------------------------------------------------
  // The dialog
  // ---------------------------------------------------------------------------

  /** The outcome of an API call: resolved, or a thrown error. */
  datatype Outcome = Resolved | Threw

  class PaymentDialog {
    var step: int
    var isLoading: bool
    var card: CardDetails

    /** The steps are 1 (card details) and 2 (confirmation). */
    predicate Valid()
      reads this
    {
      step == 1 || step == 2
    }

    /** The dialog opens on step 1 with an empty card. */
    constructor()
      ensures Valid() && step == 1 && !isLoading
      ensures card == CardDetails("", "", "", "")
    {
      step := 1;
      isLoading := false;
      card := CardDetails("", "", "", "");
    }

    method NumberChange(value: string)
      modifies this`card
      ensures card == old(card).(number := CardNumberFormat(value))
    {
      var formatted := FormatCardNumber(value);
      card := card.(number := formatted);
    }

    method NameChange(value: string)
      modifies this`card
      ensures card == old(card).(name := NameInput(value))
    {
      card := card.(name := Upper(value));
    }

    method ExpiryChange(value: string)
      modifies this`card
      ensures card == old(card).(expiry := ExpiryInput(value))
    {
      var v := value;
      if |v| == 2 && '/' !in v {
        v := v + "/";
      }
      card := card.(expiry := v);
    }

    method CvcChange(value: string)
      modifies this`card
      ensures card == old(card).(cvc := CvcInput(value))
    {
      card := card.(cvc := DigitsOf(value));
    }

    /**
     * `handlePayment`: creates a transaction of the fixed amount for the
     * semester; the dialog asks to close only when the call resolves, and
     * loading is over on either path.
     */
    method HandlePayment(semester: Semester, created: Outcome) returns (request: TransactionCreate, close: bool)
      modifies this`isLoading
      ensures request == TransactionCreate(semester.id, TuitionAmount)
      ensures close <==> created == Resolved
      ensures !isLoading
    {
      isLoading := true;
      request := TransactionCreate(semester.id, TuitionAmount);
      close := created == Resolved;
      isLoading := false;
    }

    /**
     * `handleNext`: on step 1 it advances to step 2 exactly when the card is
     * valid; on step 2 it pays and stays.  No path leads back to step 1.
     */
    method Next(semester: Semester, created: Outcome) returns (request: Option<TransactionCreate>, close: bool)
      requires Valid()
      modifies this`step, this`isLoading
      ensures Valid() && step >= old(step)
      ensures old(step) == 1 ==> request.None? && !close && (step == 2 <==> ValidateCardDetails(card) == Accepted)
      ensures old(step) == 2 ==>
        && step == 2 && request == Some(TransactionCreate(semester.id, TuitionAmount))
        && (close <==> created == Resolved)
    {
      request, close := None, false;
      if step == 1 {
        if ValidateCardDetails(card) == Accepted {
          step := 2;
        }
      } else if step == 2 {
        var r;
        r, close := HandlePayment(semester, created);
        request := Some(r);
      }
    }
  }
}
