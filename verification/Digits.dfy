/** Numbers written in hexadecimal and decimal as the standard streams write them, and read
    back.  The texts have no leading zeros, hexadecimal digits are written in capitals and read in
    either case, and reading goes from the last digit to the first, which is the order in which
    the texts are put together.  Used for escapes, references, code points, flags and versions. */
module Digits {
  import opened Basics

  function HexDigit(d: nat): char
    requires d < 16
  {
    "0123456789ABCDEF"[d]
  }

  predicate IsHexDigit(c: char) {
    IsDigit(c) || 'a' <= c <= 'f' || 'A' <= c <= 'F'
  }

  function HexValue(c: char): (d: nat)
    requires IsHexDigit(c)
    ensures d < 16
  {
    if '0' <= c <= '9' then c as int - '0' as int
    else if 'a' <= c <= 'f' then c as int - 'a' as int + 10
    else c as int - 'A' as int + 10
  }

  /** Digits are read in either case. */
  lemma HexDigitsRead(c: char)
    ensures IsHexDigit(c) <==> c in "0123456789" || c in "ABCDEF" || c in "abcdef"
  {
  }

  /** Uppercase hexadecimal without leading zeros: String::FormatHexInt. */
  function HexText(n: nat): (s: string)
    ensures s != ""
  {
    if n < 16 then [HexDigit(n)] else HexText(n / 16) + [HexDigit(n % 16)]
  }

  /** The digits are those of the base, in capitals and with the last one for the units. */
  lemma HexDigits(n: nat, d: nat)
    requires d < 16
    ensures HexText(d) == ["0123456789ABCDEF"[d]]
    ensures n > 0 ==> HexText(16 * n + d) == HexText(n) + ["0123456789ABCDEF"[d]]
  {
  }

  ghost predicate AllHex(s: string) {
    forall i :: 0 <= i < |s| ==> IsHexDigit(s[i])
  }

  function HexNumber(s: string): nat
    requires AllHex(s)
  {
    if s == "" then 0 else 16 * HexNumber(s[..|s| - 1]) + HexValue(s[|s| - 1])
  }

  lemma HexDigitValue(d: nat)
    requires d < 16
    ensures IsHexDigit(HexDigit(d)) && HexValue(HexDigit(d)) == d
  {
  }

  lemma {:induction false} HexReadsBack(n: nat)
    ensures AllHex(HexText(n)) && HexNumber(HexText(n)) == n
  {
    hide HexDigit, HexValue, IsHexDigit;
    HexDigitValue(n % 16);
    if n >= 16 {
      HexReadsBack(n / 16);
      var s := HexText(n);
      assert s[..|s| - 1] == HexText(n / 16);
    } else {
      assert [HexDigit(n)][..0] == "";
    }
  }

  // ---------- Decimal ----------

  function DecDigit(d: nat): char
    requires d < 10
  {
    '0' + d as char
  }

  function DecText(n: nat): (s: string)
    ensures s != ""
  {
    if n < 10 then [DecDigit(n)] else DecText(n / 10) + [DecDigit(n % 10)]
  }

  lemma DecDigits(n: nat, d: nat)
    requires d < 10
    ensures DecText(d) == ["0123456789"[d]]
    ensures n > 0 ==> DecText(10 * n + d) == DecText(n) + ["0123456789"[d]]
  {
  }

  ghost predicate AllDigits(s: string) {
    forall i :: 0 <= i < |s| ==> IsDigit(s[i])
  }

  function DecNumber(s: string): nat
    requires AllDigits(s)
  {
    if s == "" then 0 else 10 * DecNumber(s[..|s| - 1]) + (s[|s| - 1] as int - '0' as int)
  }

  lemma {:induction false} DecReadsBack(n: nat)
    ensures AllDigits(DecText(n)) && DecNumber(DecText(n)) == n
  {
    if n >= 10 {
      DecReadsBack(n / 10);
      var s := DecText(n);
      assert s[..|s| - 1] == DecText(n / 10);
    } else {
      assert [DecDigit(n)][..0] == "";
    }
  }
}
