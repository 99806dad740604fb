/** Devices and their textual form (device.h, device.cc). */
module Devices {
  import opened Core
  import opened CheckedMath

  /** `Other` stands for the values of the underlying `std::uint8_t` that name no enumerator. */
  datatype DeviceType = CPU | CUDA | Meta | Other(code: nat)

  /** `is_valid_device_type` */
  predicate IsValidType(t: DeviceType) { t == CPU || t == CUDA || t == Meta }

  /** `Device`; its constructor rejects everything that is not valid. */
  datatype Device = Device(kind: DeviceType, index: int) {
    predicate Valid() { IsValidType(kind) && 0 <= index <= INT32.Max() }
  }

  /** `device_type_name` */
  function TypeName(t: DeviceType): string {
    match t
    case CPU => "cpu"
    case CUDA => "cuda"
    case Meta => "meta"
    case Other(_) => "invalid"
  }

  /** `parse_device_type` */
  function ParseType(text: string): Result<DeviceType> {
    if text == "cpu" then Ok(CPU)
    else if text == "cuda" then Ok(CUDA)
    else if text == "meta" then Ok(Meta)
    else Err(InvalidArgument)
  }

  // ----- Decimal numerals

  predicate IsDigit(c: char) { '0' <= c <= '9' }

  predicate AllDigits(s: string) { forall i | 0 <= i < |s| :: IsDigit(s[i]) }

  function DigitOf(c: char): int requires IsDigit(c) { c as int - '0' as int }

  function CharOf(d: int): (c: char)
    requires 0 <= d < 10
    ensures IsDigit(c) && DigitOf(c) == d
  {
    (d + '0' as int) as char
  }

  /** The number that a string of digits denotes. */
  function Value(s: string): (n: nat)
    requires AllDigits(s)
  {
    if s == [] then 0 else 10 * Value(s[..|s| - 1]) + DigitOf(s[|s| - 1])
  }

  /** `std::to_string` of a non-negative number. */
  function ToString(n: nat): string {
    if n < 10 then [CharOf(n)] else ToString(n / 10) + [CharOf(n % 10)]
  }

  lemma {:induction false} ToStringDenotes(n: nat)
    ensures ToString(n) != [] && AllDigits(ToString(n)) && Value(ToString(n)) == n
  {
    if n >= 10 {
      ToStringDenotes(n / 10);
      assert ToString(n)[..|ToString(n)| - 1] == ToString(n / 10);
    }
  }

  function DigitRun(s: string): (n: nat)
    ensures n <= |s|
  {
    if s == [] || !IsDigit(s[0]) then 0 else 1 + DigitRun(s[1..])
  }

  lemma {:induction false} DigitRunIsMaximal(s: string)
    ensures AllDigits(s[..DigitRun(s)])
    ensures DigitRun(s) < |s| ==> !IsDigit(s[DigitRun(s)])
  {
    if s != [] && IsDigit(s[0]) {
      DigitRunIsMaximal(s[1..]);
      assert s[..DigitRun(s)] == [s[0]] + s[1..][..DigitRun(s) - 1];
    }
  }

  /** The outcome of `std::from_chars`: no numeral, a numeral beyond the type, or a value; and where it stopped. */
  datatype Chars = NoNumeral | TooLarge(end: nat) | Number(value: int, end: nat)

  /**
   `std::from_chars` for `std::int64_t` in base 10 ([charconv.from.chars] in ISO C++20): an optional
   minus sign and the longest non-empty run of digits.
   */
  function FromChars(s: string): Chars {
    var sign := if s != [] && s[0] == '-' then 1 else 0;
    var run := DigitRun(s[sign..]);
    DigitRunIsMaximal(s[sign..]);
    if run == 0 then NoNumeral
    else
      var magnitude := Value(s[sign..][..run]);
      var value := if sign == 1 then 0 - magnitude else magnitude;
      if INT64.Has(value) then Number(value, sign + run) else TooLarge(sign + run)
  }

  // ----- Parsing and printing

  function Find(s: string, c: char): (r: Option<nat>)
    ensures r.Some? ==> r.value < |s| && s[r.value] == c && c !in s[..r.value]
    ensures r.None? ==> c !in s
  {
    if s == [] then None
    else if s[0] == c then Some(0)
    else
      match Find(s[1..], c)
      case None => None
      case Some(i) =>
        assert s[..i + 1] == [s[0]] + s[1..][..i];
        Some(i + 1)
  }

  /** `Device::parse` */
  function Parse(text: string): Result<Device> {
    if text == "" then Err(InvalidArgument)
    else
      var separator := Find(text, ':');
      var typeText := if separator.Some? then text[..separator.value] else text;
      match ParseType(typeText)
      case Err(code) => Err(code)
      case Ok(kind) => if separator.None? then Ok(Device(kind, 0)) else ParseIndex(kind, text[separator.value + 1..])
  }

  /** The part of `Device::parse` after the separator. */
  function ParseIndex(kind: DeviceType, indexText: string): Result<Device> {
    if indexText == "" then Err(InvalidArgument)
    else
      var chars := FromChars(indexText);
      if !chars.Number? || chars.end != |indexText| then Err(InvalidArgument)
      else if chars.value < 0 || chars.value > INT32.Max() then Err(OutOfRange)
      else Ok(Device(kind, chars.value))
  }

  /** `Device::str` */
  function Str(d: Device): string requires d.Valid() { TypeName(d.kind) + ":" + ToString(d.index) }

  // ----- The accepted language

  /** An optional minus sign and at least one digit. */
  predicate IsNumeral(s: string) {
    s != "" && (if s[0] == '-' then s != "-" && AllDigits(s[1..]) else AllDigits(s))
  }

  function NumeralValue(s: string): int
    requires IsNumeral(s)
  {
    if s[0] == '-' then 0 - Value(s[1..]) else Value(s)
  }

  /** `from_chars` consumes everything exactly on numerals, and then yields their value if it fits. */
  lemma FromCharsIff(s: string)
    ensures !IsNumeral(s) ==> FromChars(s).NoNumeral? || FromChars(s).end != |s|
    ensures IsNumeral(s) ==>
              FromChars(s) == if INT64.Has(NumeralValue(s)) then Number(NumeralValue(s), |s|) else TooLarge(|s|)
  {
    if s != "" {
      var sign := if s[0] == '-' then 1 else 0;
      var rest := s[sign..];
      DigitRunIsMaximal(rest);
      if AllDigits(rest) { assert DigitRun(rest) == |rest|; }
      if DigitRun(rest) == |rest| { assert rest[..|rest|] == rest; }
    }
  }

  /** `text` is the name of a device type, a colon and the numeral `number`. */
  predicate IsIndexed(text: string, kind: DeviceType, number: string) {
    IsValidType(kind) && text == TypeName(kind) + ":" + number
  }

  /** How `Device::parse` takes a text apart. */
  lemma ParseSplits(text: string)
    ensures var separator := Find(text, ':');
      && (separator.Some? ==> text == text[..separator.value] + ":" + text[separator.value + 1..])
      && (forall kind, number :: IsIndexed(text, kind, number) ==>
            separator.Some? && text[..separator.value] == TypeName(kind) && text[separator.value + 1..] == number)
      && (forall kind | IsValidType(kind) && text == TypeName(kind) :: separator.None?)
  {
    var separator := Find(text, ':');
    forall kind, number | IsIndexed(text, kind, number)
      ensures separator.Some? && text[..separator.value] == TypeName(kind) && text[separator.value + 1..] == number
    {
      var n := |TypeName(kind)|;
      assert text[n] == ':';
      forall i | 0 <= i < n ensures text[i] != ':' { assert text[i] == TypeName(kind)[i]; }
      assert separator.Some? && separator.value == n;
    }
  }

  lemma TypeRoundTrip(kind: DeviceType, text: string)
    ensures ParseType(text) == Ok(kind) <==> IsValidType(kind) && text == TypeName(kind)
    ensures ParseType(text).Err? ==> ParseType(text) == Err(InvalidArgument)
  {
  }

  /** The two ways in which a text can be taken apart, and what `parse` makes of them. */
  lemma ParseCases(text: string)
    ensures forall kind | IsValidType(kind) && text == TypeName(kind) :: Parse(text) == Ok(Device(kind, 0))
    ensures forall kind, number | IsIndexed(text, kind, number) :: Parse(text) == ParseIndex(kind, number)
    ensures (exists kind :: IsValidType(kind) && text == TypeName(kind))
         || (exists kind, number :: IsIndexed(text, kind, number))
         || Parse(text) == Err(InvalidArgument)
  {
    hide ParseIndex;
    ParseSplits(text);
    var separator := Find(text, ':');
    var typeText := if separator.Some? then text[..separator.value] else text;
    forall kind ensures ParseType(typeText) == Ok(kind) <==> IsValidType(kind) && typeText == TypeName(kind) {
      TypeRoundTrip(kind, typeText);
    }
    if ParseType(typeText).Ok? && separator.Some? {
      assert IsIndexed(text, ParseType(typeText).value, text[separator.value + 1..]);
    }
  }

  lemma ParseIndexIff(kind: DeviceType, number: string)
    ensures forall d :: ParseIndex(kind, number) == Ok(d) <==>
              IsNumeral(number) && d == Device(kind, NumeralValue(number)) && 0 <= d.index <= INT32.Max()
    ensures ParseIndex(kind, number) == Err(OutOfRange) <==>
              IsNumeral(number) && INT64.Has(NumeralValue(number)) && !(0 <= NumeralValue(number) <= INT32.Max())
    ensures ParseIndex(kind, number).Err? ==>
              ParseIndex(kind, number) == Err(OutOfRange) || ParseIndex(kind, number) == Err(InvalidArgument)
  {
    hide FromChars;
    FromCharsIff(number);
    WideIndex();
  }

  lemma WideIndex()
    ensures INT32.Max() <= INT64.Max() && INT32.Max() > 0
  {
    assert Pow2(31) == 2 * Pow2(30);
    Pow2Grows(31, 63);
  }

  /** `parse` accepts a bare type name, or one with a numeral whose value is an index; nothing else. */
  lemma ParseIff(text: string, d: Device)
    ensures Parse(text) == Ok(d) <==>
              d.Valid() && ((text == TypeName(d.kind) && d.index == 0)
                            || exists number :: IsIndexed(text, d.kind, number)
                                                && IsNumeral(number) && NumeralValue(number) == d.index)
  {
    hide Parse, ParseIndex, NumeralValue, IsNumeral;
    ParseCases(text);
    WideIndex();
    forall kind, number | IsIndexed(text, kind, number)
      ensures Parse(text) == Ok(d) <==>
                IsNumeral(number) && d == Device(kind, NumeralValue(number)) && 0 <= d.index <= INT32.Max()
    {
      ParseIndexIff(kind, number);
    }
  }

  /** The index is out of range exactly when it is a 64-bit value that is no index; all else is invalid. */
  lemma ParseErrors(text: string)
    ensures Parse(text) == Err(OutOfRange) <==>
              exists kind, number :: IsIndexed(text, kind, number) && IsNumeral(number)
                && INT64.Has(NumeralValue(number)) && !(0 <= NumeralValue(number) <= INT32.Max())
    ensures Parse(text).Err? ==> Parse(text) == Err(OutOfRange) || Parse(text) == Err(InvalidArgument)
  {
    hide Parse, ParseIndex, NumeralValue, IsNumeral;
    ParseCases(text);
    forall kind, number | IsIndexed(text, kind, number)
      ensures Parse(text) == Err(OutOfRange) <==>
                IsNumeral(number) && INT64.Has(NumeralValue(number)) && !(0 <= NumeralValue(number) <= INT32.Max())
      ensures Parse(text).Err? ==> Parse(text) == Err(OutOfRange) || Parse(text) == Err(InvalidArgument)
    {
      ParseIndexIff(kind, number);
    }
  }

  /** Parsing undoes printing. */
  lemma ParseUndoesStr(d: Device)
    requires d.Valid()
    ensures Parse(Str(d)) == Ok(d)
  {
    var number := ToString(d.index);
    ToStringDenotes(d.index);
    assert number[0] != '-' by { assert IsDigit(number[0]); }
    assert IsIndexed(Str(d), d.kind, number) && IsNumeral(number);
    ParseIff(Str(d), d);
  }

  /** Printing what was parsed. */
  function Canonical(text: string): (r: Result<string>) {
    match Parse(text)
    case Err(code) => Err(code)
    case Ok(d) => ParseIff(text, d); Ok(Str(d))
  }

  /** It keeps the device, it is idempotent, and two texts share it exactly if they name one device. */
  lemma CanonicalIsIdempotent(a: string, b: string)
    requires Parse(a).Ok? && Parse(b).Ok?
    ensures Parse(Canonical(a).value) == Parse(a)
    ensures Canonical(Canonical(a).value) == Canonical(a)
    ensures Canonical(a) == Canonical(b) <==> Parse(a) == Parse(b)
  {
    ParseIff(a, Parse(a).value);
    ParseIff(b, Parse(b).value);
    ParseUndoesStr(Parse(a).value);
    ParseUndoesStr(Parse(b).value);
  }

  // ----- The texts themselves

  /** The names, and the texts with a colon after the name. */
  lemma ParseNames(number: string, i: int)
    ensures Parse("cpu") == Ok(Device(CPU, 0)) && Parse("cuda") == Ok(Device(CUDA, 0))
    ensures Parse("meta") == Ok(Device(Meta, 0))
    ensures Parse("cpu:" + number) == Ok(Device(CPU, i))
       <==> IsNumeral(number) && NumeralValue(number) == i && 0 <= i <= 0x7FFF_FFFF
    ensures Parse("cuda:" + number) == Ok(Device(CUDA, i))
       <==> IsNumeral(number) && NumeralValue(number) == i && 0 <= i <= 0x7FFF_FFFF
    ensures Parse("meta:" + number) == Ok(Device(Meta, i))
       <==> IsNumeral(number) && NumeralValue(number) == i && 0 <= i <= 0x7FFF_FFFF
  {
    hide Parse, ParseIndex, NumeralValue, IsNumeral;
    ParseCases("cpu");
    ParseCases("cuda");
    ParseCases("meta");
    ParseNamed("cpu", CPU, number, i);
    ParseNamed("cuda", CUDA, number, i);
    ParseNamed("meta", Meta, number, i);
    assert "cpu:" == "cpu" + ":" && "cuda:" == "cuda" + ":" && "meta:" == "meta" + ":";
  }

  lemma ParseNamed(name: string, kind: DeviceType, number: string, i: int)
    requires IsValidType(kind) && name == TypeName(kind)
    ensures Parse(name + ":" + number) == Ok(Device(kind, i))
       <==> IsNumeral(number) && NumeralValue(number) == i && 0 <= i <= 0x7FFF_FFFF
  {
    hide Parse, ParseIndex, NumeralValue, IsNumeral;
    assert IsIndexed(name + ":" + number, kind, number);
    ParseCases(name + ":" + number);
    ParseIndexIff(kind, number);
    Limits();
  }

  /** A printed device starts with its name; its index is printed as the numeral without leading zeros. */
  lemma StrNames(d: Device, number: string)
    requires d.Valid() && IsNumeral(number) && NumeralValue(number) == d.index
    requires number == "0" || ('1' <= number[0] <= '9')
    ensures Str(d) == (if d.kind == CPU then "cpu:" else if d.kind == CUDA then "cuda:" else "meta:") + number
  {
    ToStringUnique(number);
  }

  /** The numeral of a number without leading zeros is what `std::to_string` prints. */
  lemma {:induction false} ToStringUnique(s: string)
    requires s != "" && AllDigits(s) && (s == "0" || s[0] != '0')
    ensures ToString(Value(s)) == s
  {
    var n := |s| - 1;
    var front, digit := s[..n], DigitOf(s[n]);
    assert s == front + [s[n]];
    assert CharOf(digit) == s[n];
    if front == "" {
      assert Value(front) == 0;
    } else {
      ToStringUnique(front);
      PositiveValue(front);
      assert Value(s) / 10 == Value(front) && Value(s) % 10 == digit;
    }
  }

  lemma {:induction false} PositiveValue(s: string)
    requires s != "" && AllDigits(s) && s[0] != '0'
    ensures Value(s) > 0
  {
    if |s| > 1 { PositiveValue(s[..|s| - 1]); }
  }

  /** Numerals are decimal: what a digit, one more digit, and a minus sign mean. */
  lemma NumeralsAreDecimal(s: string, c: char)
    ensures '0' <= c <= '9' ==> IsNumeral([c]) && NumeralValue([c]) == c as int - '0' as int
    ensures IsNumeral(s) && s[0] != '-' && '0' <= c <= '9' ==>
              IsNumeral(s + [c]) && NumeralValue(s + [c]) == 10 * NumeralValue(s) + (c as int - '0' as int)
    ensures IsNumeral(s) && s[0] != '-' ==> IsNumeral("-" + s) && NumeralValue("-" + s) == -NumeralValue(s)
    ensures IsNumeral(s) ==> s != "" && (s[0] == '-' || '0' <= s[0] <= '9')
    ensures IsNumeral(s) ==> s != "-" && forall i | 0 < i < |s| :: '0' <= s[i] <= '9'
  {
    assert Value("") == 0;
    if IsNumeral(s) && s[0] != '-' {
      if '0' <= c <= '9' { assert (s + [c])[..|s + [c]| - 1] == s; }
      assert ("-" + s)[1..] == s;
    }
    if IsNumeral(s) && s[0] == '-' {
      forall i | 0 < i < |s| ensures '0' <= s[i] <= '9' { assert s[i] == s[1..][i - 1]; }
    }
  }
}
