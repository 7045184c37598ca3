/**
 * The inquiry record written once when a visitor asks about a car: the form
 * fields, the car's id (or a sentinel) and a human-readable label of the car
 * captured at submission time.
 */
module Inquiry {
  import opened Wrappers
  import opened Catalog

  // ---- Decimal rendering of integers, as a template literal does it ----

  predicate IsDigit(c: char) {
    '0' <= c <= '9'
  }

  predicate AllDigits(s: string) {
    forall i :: 0 <= i < |s| ==> IsDigit(s[i])
  }

  function DigitChar(d: nat): (c: char)
    requires d < 10
    ensures IsDigit(c)
  {
    (48 + d) as char
  }

  /** The decimal digits of `n`, most significant first, with no leading zero. */
  function NatToString(n: nat): (s: string)
    ensures |s| >= 1 && AllDigits(s)
    ensures s[0] == '0' ==> n == 0
    ensures n == 0 ==> s == "0"
    decreases n
  {
    if n < 10 then [DigitChar(n)] else NatToString(n / 10) + [DigitChar(n % 10)]
  }

  /** `${n}` for an integral number `n`. */
  function IntToString(n: int): string {
    if n < 0 then "-" + NatToString(-n) else NatToString(n)
  }

  /** The value of a string of decimal digits. */
  function DigitsValue(s: string): nat
    requires AllDigits(s)
    decreases |s|
  {
    if s == [] then 0 else DigitsValue(s[..|s| - 1]) * 10 + (s[|s| - 1] as int - 48)
  }

  /** Reads back an optionally negative decimal integer; anything else is `None`. */
  function ParseInt(s: string): Option<int> {
    if |s| >= 2 && s[0] == '-' && AllDigits(s[1..]) then Some(-(DigitsValue(s[1..]) as int))
    else if s != [] && AllDigits(s) then Some(DigitsValue(s))
    else None
  }

  lemma {:induction false} NatToStringRoundTrip(n: nat)
    ensures DigitsValue(NatToString(n)) == n
    decreases n
  {
    var s := NatToString(n);
    if n < 10 {
      assert s[..0] == [];
    } else {
      NatToStringRoundTrip(n / 10);
      assert s[..|s| - 1] == NatToString(n / 10);
    }
  }

  /** Rendering an integer and reading it back gives the integer. */
  lemma IntToStringRoundTrip(n: int)
    ensures ParseInt(IntToString(n)) == Some(n)
    ensures ' ' !in IntToString(n)
  {
    if n < 0 {
      NatToStringRoundTrip(-n);
      assert IntToString(n)[1..] == NatToString(-n);
    } else {
      NatToStringRoundTrip(n);
    }
  }

  /** The text up to the first space. */
  function FirstWord(s: string): string {
    if s == [] || s[0] == ' ' then [] else [s[0]] + FirstWord(s[1..])
  }

  lemma {:induction false} FirstWordOf(w: string, rest: string)
    requires ' ' !in w
    ensures FirstWord(w + " " + rest) == w
  {
    if w != [] {
      assert (w + " " + rest)[1..] == w[1..] + " " + rest;
      FirstWordOf(w[1..], rest);
    }
  }

  // ---- The inquiry ----

  /** `${car?.year} ${car?.make} ${car?.model}`; a missing car renders as three `undefined`s. */
  function CarLabel(car: Option<Car>): string {
    match car
    case Some(c) => IntToString(c.year) + " " + c.make + " " + c.model
    case None => "undefined undefined undefined"
  }

  /** The label of a car begins with its year, which can be read back from it. */
  lemma CarLabelYear(car: Option<Car>)
    ensures car.Some? ==> ParseInt(FirstWord(CarLabel(car))) == Some(car.value.year)
  {
    if car.Some? {
      var c := car.value;
      IntToStringRoundTrip(c.year);
      FirstWordOf(IntToString(c.year), c.make + " " + c.model);
      assert CarLabel(car) == IntToString(c.year) + " " + (c.make + " " + c.model);
    }
  }

  datatype InquiryForm = InquiryForm(name: string, email: string, phone: string, message: string)

  const MessageOpening: string := "I am interested in the "
  const MessageClosing: string := ". Please provide more information."

  /** The form's initial state: empty contact fields and a message naming the car. */
  function InitialForm(car: Option<Car>): (f: InquiryForm)
    ensures f.name == "" && f.email == "" && f.phone == ""
    ensures |f.message| == |MessageOpening| + |CarLabel(car)| + |MessageClosing|
    ensures f.message[..|MessageOpening|] == MessageOpening
    ensures f.message[|MessageOpening|..|MessageOpening| + |CarLabel(car)|] == CarLabel(car)
    ensures f.message[|MessageOpening| + |CarLabel(car)|..] == MessageClosing
  {
    InquiryForm("", "", "", MessageOpening + CarLabel(car) + MessageClosing)
  }

  /** The store fills in its own time; the client only asks for it. */
  datatype Timestamp = ServerTimestamp

  datatype InquiryRecord = InquiryRecord(
    name: string,
    email: string,
    phone: string,
    message: string,
    carId: string,
    carName: string,
    createdAt: Timestamp)

  /** The sentinel reference used when the car has no id. */
  const UnknownCar: string := "unknown"

  /**
   * The document added to the inquiries collection: the form fields, the
   * car's id or the sentinel, and the car's label.
   */
  function BuildInquiry(form: InquiryForm, car: Option<Car>): (r: InquiryRecord)
    ensures r.name == form.name && r.email == form.email
    ensures r.phone == form.phone && r.message == form.message
    ensures car.Some? && car.value.id != "" ==> r.carId == car.value.id
    ensures car.None? || car.value.id == "" ==> r.carId == UnknownCar
    ensures r.carId != ""
    ensures car.Some? ==> ParseInt(FirstWord(r.carName)) == Some(car.value.year)
    ensures car.Some? ==> r.carName == IntToString(car.value.year) + " " + car.value.make + " " + car.value.model
    ensures car.None? ==> r.carName == "undefined undefined undefined"
    ensures r.createdAt == ServerTimestamp
  {
    CarLabelYear(car);
    var carId := if car.Some? && car.value.id != "" then car.value.id else UnknownCar;
    InquiryRecord(form.name, form.email, form.phone, form.message, carId, CarLabel(car), ServerTimestamp)
  }

  /**
   * Submitting the untouched form records a message that names the car with
   * the very label stored as `carName`.
   */
  lemma DefaultMessageNamesCar(car: Option<Car>)
    ensures var r := BuildInquiry(InitialForm(car), car);
      r.message[|MessageOpening|..|MessageOpening| + |r.carName|] == r.carName
  {
  }
}
