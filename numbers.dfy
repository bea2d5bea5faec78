/**
 * The pieces of Rust's standard library that `rust/module.rs` leans on for
 * numbers: `u32::from_str_radix` / `str::parse::<usize>` (one algorithm,
 * two bounds), decimal formatting of a `usize`, and the bitwise `&` of two
 * unsigned values.
 */
module RustNumbers {
  import opened Wrappers

  /** `char::to_digit(36)`: the value of an ASCII digit or letter, whatever the radix. */
  function DigitValue(c: char): (r: Option<nat>)
    ensures r.Some? ==> r.value < 36
  {
    if '0' <= c <= '9' then Some(c as nat - '0' as nat)
    else if 'a' <= c <= 'z' then Some(c as nat - 'a' as nat + 10)
    else if 'A' <= c <= 'Z' then Some(c as nat - 'A' as nat + 10)
    else None
  }

  /** The decimal digit character of a value below 10. */
  function DigitChar(d: nat): (c: char)
    requires d < 10
    ensures '0' <= c <= '9' && DigitValue(c) == Some(d)
  {
    ('0' as nat + d) as char
  }

  /** The value of a run of digits below `radix`, read most significant first. */
  function DigitsValue(ds: string, radix: nat): Option<nat>
    requires 2 <= radix <= 36
    decreases |ds|
  {
    if ds == [] then Some(0)
    else
      var prefix := DigitsValue(ds[..|ds| - 1], radix);
      var d := DigitValue(ds[|ds| - 1]);
      if prefix.None? || d.None? || d.value >= radix then None
      else Some(prefix.value * radix + d.value)
  }

  /**
   * `from_str_radix` for an unsigned type whose largest value is `max`:
   * rejects the empty string and a lone sign, accepts one leading `+`
   * (a leading `-` is an invalid digit for unsigned types), and rejects
   * invalid digits and values above `max`.
   */
  function FromStrRadix(s: string, radix: nat, max: nat): (r: Option<nat>)
    requires 2 <= radix <= 36
    ensures r.Some? ==> r.value <= max && s != [] && s != "+"
  {
    if s == [] then None
    else if (s[0] == '+' || s[0] == '-') && |s| == 1 then None
    else
      var ds := if s[0] == '+' then s[1..] else s;
      var v := DigitsValue(ds, radix);
      if v.Some? && v.value <= max then v else None
  }

  /** `format!("{}", n)` for an unsigned integer: its decimal digits, without leading zeros. */
  function NatToDecimal(n: nat): (ds: string)
    ensures |ds| >= 1
    ensures forall i :: 0 <= i < |ds| ==> '0' <= ds[i] <= '9'
    decreases n
  {
    if n < 10 then [DigitChar(n)]
    else NatToDecimal(n / 10) + [DigitChar(n % 10)]
  }

  /** Printing a number in decimal and reading the digits back gives the number. */
  lemma {:induction false} DecimalDigitsRoundTrip(n: nat)
    ensures DigitsValue(NatToDecimal(n), 10) == Some(n)
    decreases n
  {
    var ds := NatToDecimal(n);
    if n < 10 {
      assert ds[..0] == [];
    } else {
      DecimalDigitsRoundTrip(n / 10);
      assert ds[..|ds| - 1] == NatToDecimal(n / 10);
    }
  }

  /** `from_str_radix` (and `str::parse`) reads back what decimal formatting wrote, up to the type's bound. */
  lemma DecimalRoundTrip(n: nat, max: nat)
    requires n <= max
    ensures FromStrRadix(NatToDecimal(n), 10, max) == Some(n)
  {
    DecimalDigitsRoundTrip(n);
  }

  /** `a & b` on unsigned integers, bit by bit from the least significant one. */
  function BitAnd(a: nat, b: nat): nat
    decreases a
  {
    if a == 0 || b == 0 then 0
    else 2 * BitAnd(a / 2, b / 2) + (if a % 2 == 1 && b % 2 == 1 then 1 else 0)
  }

  /** Bit `k` of `n`. */
  function Bit(n: nat, k: nat): (b: nat)
    ensures b < 2
  {
    if k == 0 then n % 2 else Bit(n / 2, k - 1)
  }

  lemma HalfOf(x: nat, b: nat)
    requires b < 2
    ensures (2 * x + b) / 2 == x && (2 * x + b) % 2 == b
  {
  }

  /** Bit `k + 1` of `2x + b` is bit `k` of `x`; bit 0 is `b`. */
  lemma BitStep(x: nat, b: nat, k: nat)
    requires b < 2
    ensures Bit(2 * x + b, k + 1) == Bit(x, k) && Bit(2 * x + b, 0) == b
  {
    HalfOf(x, b);
  }
}
