/**
 JSON-RPC quantities (crates/chains/evm/src/rpc.rs) and the lower-hex printing the adapter uses
 for block numbers (crates/chains/evm/src/adapter.rs).
 */
module RpcQuantity {
  import opened Prelude

  datatype DecodeError = InvalidQuantity | ExceedsU64

  /** The value of a hexadecimal digit, in either case. */
  function DigitValue(c: char): Option<nat> {
    if '0' <= c <= '9' then Some(c as int - '0' as int)
    else if 'a' <= c <= 'f' then Some(c as int - 'a' as int + 10)
    else if 'A' <= c <= 'F' then Some(c as int - 'A' as int + 10)
    else None
  }

  predicate AllHex(s: string) {
    forall i :: 0 <= i < |s| ==> DigitValue(s[i]).Some?
  }

  function HexValue(s: string): nat
    requires AllHex(s)
  {
    if s == "" then 0 else 16 * HexValue(s[..|s| - 1]) + DigitValue(s[|s| - 1]).value
  }

  /** `u64::from_str_radix(_, 16)`, which also takes a leading plus sign. */
  function FromStrRadix16(raw: string): Option<u64> {
    var digits := if |raw| > 1 && raw[0] == '+' then raw[1..] else raw;
    if digits == "" || !AllHex(digits) || HexValue(digits) > U64_MAX then None else Some(HexValue(digits))
  }

  /** `text` is what `as_str` gives: nothing when the JSON value is not a string. */
  function Quantity(text: Option<string>): Result<u64, DecodeError> {
    if text.None? || !("0x" <= text.value) then Err(InvalidQuantity)
    else
      var raw := text.value[2..];
      if raw == "" || (|raw| != 1 && raw[0] == '0') then Err(InvalidQuantity)
      else
        match FromStrRadix16(raw)
        case Some(n) => Ok(n)
        case None => Err(ExceedsU64)
  }

  /** The lower-case digit for a value. */
  function Digit(v: nat): char
    requires v < 16
  {
    if v < 10 then ('0' as int + v) as char else ('a' as int + (v - 10)) as char
  }

  /** `{:x}`: lower-case digits without leading zeros. */
  function LowerHex(n: nat): (s: string)
    ensures s != ""
  {
    if n < 16 then [Digit(n)] else LowerHex(n / 16) + [Digit(n % 16)]
  }

  // ---------------------------------------------------------------- what is accepted

  predicate NoRedundantZero(digits: string) {
    digits != "" && (|digits| == 1 || digits[0] != '0')
  }

  /** The Quantities rule of the Ethereum JSON-RPC API, for values that fit a u64. */
  predicate IsQuantity(text: string) {
    && "0x" <= text
    && NoRedundantZero(text[2..])
    && AllHex(text[2..])
    && HexValue(text[2..]) <= U64_MAX
  }

  /** The other strings that get through: a plus sign, then any hex digits at all. */
  predicate IsSigned(text: string) {
    && "0x+" <= text
    && text[3..] != ""
    && AllHex(text[3..])
    && HexValue(text[3..]) <= U64_MAX
  }

  /** Exactly the quantities are accepted, each as its value, plus exactly the signed forms. */
  lemma {:induction false} AcceptedStrings(text: string)
    ensures Quantity(Some(text)).Ok? <==> IsQuantity(text) || IsSigned(text)
    ensures IsQuantity(text) ==> Quantity(Some(text)) == Ok(HexValue(text[2..]))
    ensures !(IsQuantity(text) && IsSigned(text))
  {
    if "0x" <= text {
      var raw := text[2..];
      assert "0x+" <= text <==> raw != "" && raw[0] == '+';
      if raw != "" && raw[0] == '+' {
        assert DigitValue(raw[0]).None?;
        assert raw[1..] == text[3..];
      }
    }
  }

  /**
   Why a string is refused: it is not a prefixed string of digits without a redundant zero, or else
   what follows the prefix is not read as a number of 64 bits.
   */
  lemma {:induction false} RefusedWhy(text: Option<string>)
    ensures Quantity(text) == Err(InvalidQuantity) <==>
            text.None? || !("0x" <= text.value) || !NoRedundantZero(text.value[2..])
    ensures Quantity(text) == Err(ExceedsU64) <==>
            && text.Some? && "0x" <= text.value && NoRedundantZero(text.value[2..])
            && !IsQuantity(text.value) && !IsSigned(text.value)
  {
    if text.Some? {
      AcceptedStrings(text.value);
    }
  }

  /** Acceptance follows the Quantities rule on a string exactly when it is not a signed form. */
  lemma {:induction false} FollowsRuleIff(text: string)
    ensures (Quantity(Some(text)).Ok? <==> IsQuantity(text)) <==> !IsSigned(text)
  {
    AcceptedStrings(text);
  }

  /** A signed form does get through, redundant zeros and all. */
  lemma SignedFormIsAccepted()
    ensures Quantity(Some("0x+005")) == Ok(5) && !IsQuantity("0x+005")
  {
    var digits := "005";
    assert "0x+005"[2..][1..] == digits;
    assert digits[..2] == "00" && "00"[..1] == "0" && "0"[..0] == "";
    assert HexValue("0") == 0 && HexValue("00") == 0;
    assert HexValue(digits) == 5;
    assert DigitValue("0x+005"[2..][0]).None?;
  }

  // ---------------------------------------------------------------- letter case

  function Upper(c: char): char {
    if 'a' <= c <= 'f' then (c as int - 'a' as int + 'A' as int) as char else c
  }

  function UpperAll(s: string): string {
    seq(|s|, i requires 0 <= i < |s| => Upper(s[i]))
  }

  /** Case carries no meaning: the upper-case form of digits has the same value. */
  lemma {:induction false} UpperHasSameValue(digits: string)
    requires AllHex(digits)
    ensures AllHex(UpperAll(digits)) && HexValue(UpperAll(digits)) == HexValue(digits)
  {
    var upper := UpperAll(digits);
    assert forall i :: 0 <= i < |digits| ==> DigitValue(upper[i]) == DigitValue(digits[i]);
    if digits == "" {
    } else {
      UpperHasSameValue(digits[..|digits| - 1]);
      assert upper[..|upper| - 1] == UpperAll(digits[..|digits| - 1]);
    }
  }

  lemma DigitRoundTrip(v: nat)
    requires v < 16
    ensures DigitValue(Digit(v)) == Some(v)
  {
  }

  lemma {:induction false} PrintedParses(n: nat)
    ensures var s := LowerHex(n);
            AllHex(s) && HexValue(s) == n && NoRedundantZero(s) && (s[0] == '0' ==> n == 0)
  {
    var s := LowerHex(n);
    DigitRoundTrip(n % 16);
    if n < 16 {
      assert s[..0] == "" && HexValue("") == 0;
    } else {
      PrintedParses(n / 16);
      assert s[..|s| - 1] == LowerHex(n / 16);
    }
  }

  /** What the adapter prints may be echoed in upper case: it still reads back. */
  lemma {:induction false} QuantityIgnoresCase(n: u64)
    ensures Quantity(Some("0x" + UpperAll(LowerHex(n)))) == Ok(n)
  {
    var digits := LowerHex(n);
    var text := "0x" + UpperAll(digits);
    PrintedParses(n);
    UpperHasSameValue(digits);
    assert text[2..] == UpperAll(digits);
    assert UpperAll(digits)[0] == '0' ==> digits[0] == '0';
    AcceptedStrings(text);
  }

  // ---------------------------------------------------------------- round trip

  predicate IsLowerDigit(c: char) {
    '0' <= c <= '9' || 'a' <= c <= 'f'
  }

  predicate IsLowerHex(s: string) {
    forall i :: 0 <= i < |s| ==> IsLowerDigit(s[i])
  }

  lemma LowerDigit(c: char)
    requires IsLowerDigit(c)
    ensures DigitValue(c).Some? && DigitValue(c).value < 16 && Digit(DigitValue(c).value) == c
  {
  }

  /** What the adapter prints for a height, an endpoint may echo: it reads back as that height. */
  lemma {:induction false} QuantityInvertsPrinting(n: u64)
    ensures Quantity(Some("0x" + LowerHex(n))) == Ok(n)
  {
    var text := "0x" + LowerHex(n);
    PrintedParses(n);
    assert text[2..] == LowerHex(n);
    AcceptedStrings(text);
  }

  lemma AppendDigit(n: nat, v: nat)
    requires n > 0 && v < 16
    ensures LowerHex(16 * n + v) == LowerHex(n) + [Digit(v)]
  {
    assert (16 * n + v) / 16 == n && (16 * n + v) % 16 == v;
  }

  lemma {:induction false} ParsedPrints(digits: string)
    requires IsLowerHex(digits) && AllHex(digits) && NoRedundantZero(digits)
    ensures LowerHex(HexValue(digits)) == digits
    ensures digits[0] != '0' ==> HexValue(digits) > 0
  {
    var front, last := digits[..|digits| - 1], digits[|digits| - 1];
    var v := DigitValue(last).value;
    LowerDigit(last);
    assert digits == front + [last];
    if |digits| == 1 {
      assert HexValue(front) == 0;
      assert digits[0] == '0' || v > 0;
    } else {
      ParsedPrints(front);
      AppendDigit(HexValue(front), v);
    }
  }

  /** Conversely, an accepted lower-case quantity is the printed form of its value, and no other. */
  lemma {:induction false} LowerCaseQuantityIsPrinted(text: string, n: u64)
    requires IsQuantity(text) && IsLowerHex(text[2..])
    ensures Quantity(Some(text)) == Ok(n) <==> text == "0x" + LowerHex(n)
  {
    AcceptedStrings(text);
    ParsedPrints(text[2..]);
    assert text == "0x" + text[2..];
    if text == "0x" + LowerHex(n) {
      QuantityInvertsPrinting(n);
    }
  }
}
