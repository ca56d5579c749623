/** int_to_str and reverse_str of lib/string.c. */
module DecimalString {
  import opened Options

  const INT_MIN: int := -0x8000_0000

  type int32 = x: int | -0x8000_0000 <= x < 0x8000_0000

  /** `-num` in 32 bits: the least number is its own negation. */
  function Negate(num: int32): int32 {
    if num == INT_MIN then INT_MIN else -num
  }

  function Digit(d: nat): char
    requires d < 10
  {
    '0' + d as char
  }

  /** The decimal digits of n, the last one first, as the loop stores them. */
  function Reversed(n: int): (s: string)
    decreases n
  {
    if n <= 0 then "" else [Digit(n % 10)] + Reversed(n / 10)
  }

  function Reverse(s: string): (r: string)
    ensures |r| == |s|
    ensures forall i :: 0 <= i < |s| ==> r[i] == s[|s| - 1 - i]
  {
    seq(|s|, i requires 0 <= i < |s| => s[|s| - 1 - i])
  }

  /** The string that int_to_str leaves in the buffer. */
  function Text(num: int32): string {
    if num == 0 then "0"
    else if num < 0 then Reverse(Reversed(Negate(num)) + "-")
    else Reverse(Reversed(num))
  }

  /* ---- reading a number ---- */

  /** The value of a string of digits. */
  function ParseDigits(s: string): Option<nat> {
    if s == "" then Some(0)
    else
      var c, front := s[|s| - 1], ParseDigits(s[..|s| - 1]);
      if '0' <= c <= '9' && front.Some? then Some(10 * front.value + (c - '0') as nat) else None
  }

  /** A number: at least one digit, after an optional minus sign. */
  function Parse(s: string): Option<int> {
    if s == "" || s == "-" then None
    else if s[0] == '-' then
      match ParseDigits(s[1..])
      case None => None
      case Some(n) => Some(0 - n as int)
    else
      match ParseDigits(s)
      case None => None
      case Some(n) => Some(n)
  }

  lemma ReverseSnoc(c: char, s: string)
    ensures Reverse([c] + s) == Reverse(s) + [c]
    ensures Reverse(s + [c]) == [c] + Reverse(s)
  {
  }

  lemma DigitChar(d: nat)
    requires d < 10
    ensures '0' <= Digit(d) <= '9' && (Digit(d) - '0') as nat == d && (Digit(d) == '0' <==> d == 0)
  {
  }

  lemma ParseSnoc(s: string, d: nat)
    requires d < 10 && ParseDigits(s).Some?
    ensures ParseDigits(s + [Digit(d)]) == Some(10 * ParseDigits(s).value + d)
  {
    DigitChar(d);
    hide Digit;
    assert (s + [Digit(d)])[..|s|] == s;
  }

  lemma ReversedStep(n: nat)
    requires n > 0
    ensures Reverse(Reversed(n)) == Reverse(Reversed(n / 10)) + [Digit(n % 10)]
  {
    ReverseSnoc(Digit(n % 10), Reversed(n / 10));
  }

  lemma {:induction false} ParseReversed(n: nat)
    ensures ParseDigits(Reverse(Reversed(n))) == Some(n)
    ensures n > 0 ==> Reversed(n) != "" && '0' < Reverse(Reversed(n))[0] <= '9'
    decreases n
  {
    if n == 0 {
      assert Reverse(Reversed(0)) == "";
    } else {
      var front, d := Reverse(Reversed(n / 10)), n % 10;
      ReversedStep(n);
      ParseReversed(n / 10);
      DigitChar(d);
      assert n == 10 * (n / 10) + d;
      assert n / 10 == 0 ==> front == "";
      hide ParseDigits, Digit, Reverse, Reversed;
      ParseSnoc(front, d);
    }
  }

  /** The text of a number reads back as that number, for every number but the least;
      that one comes out as a lone minus sign. */
  lemma TextParsesIff(num: int32)
    ensures Parse(Text(num)) == Some(num) <==> num != INT_MIN
    ensures num == INT_MIN ==> Text(num) == "-"
  {
    if num == 0 {
      assert "0"[..0] == "";
      assert ParseDigits("") == Some(0);
      assert ParseDigits("0") == Some(0);
    } else if num == INT_MIN {
      assert Reversed(INT_MIN) == "";
    } else if num < 0 {
      var r := Reversed(-num);
      ParseReversed(-num);
      ReverseSnoc('-', r);
      assert Text(num) == ['-'] + Reverse(r);
      assert Text(num)[1..] == Reverse(r);
    } else {
      ParseReversed(num);
    }
  }

  /** No leading zero, except in "0" itself. */
  lemma NoLeadingZero(num: int32)
    requires num != 0
    ensures
      var s := Text(num);
      s != "" && s[0] != '0' && (s[0] == '-' <==> num < 0) && (s[0] == '-' && |s| > 1 ==> s[1] != '0')
  {
    if num < 0 {
      var m := Negate(num);
      ReverseSnoc('-', Reversed(m));
      if m > 0 {
        ParseReversed(m);
      }
    } else {
      ParseReversed(num);
    }
  }

  function Pow10(k: nat): nat {
    if k == 0 then 1 else 10 * Pow10(k - 1)
  }

  lemma {:induction false} DigitCount(n: nat, k: nat)
    requires n < Pow10(k)
    ensures |Reversed(n)| <= k
    decreases k
  {
    if n == 0 {
    } else {
      DigitCount(n / 10, k - 1);
    }
  }

  /** With its terminator the text takes at most 12 bytes, and it contains no NUL. */
  lemma TextFits(num: int32)
    ensures |Text(num)| + 1 <= 12
    ensures forall i :: 0 <= i < |Text(num)| ==> Text(num)[i] != '\0'
  {
    assert Pow10(10) == 10000000000;
    var m := if num < 0 then Negate(num) else num;
    if m > 0 {
      DigitCount(m, 10);
      NoNul(m);
    }
  }

  lemma {:induction false} NoNul(n: int)
    ensures forall i :: 0 <= i < |Reversed(n)| ==> Reversed(n)[i] != '\0'
    decreases n
  {
    if n <= 0 {
    } else {
      NoNul(n / 10);
    }
  }

  /* ---- the functions themselves ---- */

  /** reverse_str on a NUL-terminated string. */
  method ReverseStr(str: array<char>, ghost n: nat)
    requires n < str.Length && str[n] == '\0' && forall i :: 0 <= i < n ==> str[i] != '\0'
    modifies str
    ensures str[..n] == Reverse(old(str[..n]))
    ensures forall k :: n <= k < str.Length ==> str[k] == old(str[k])
  {
    var len := 0;
    while str[len] != '\0'
      invariant 0 <= len <= n
      decreases n - len
    {
      len := len + 1;
    }
    assert len == n;
    var i := 0;
    while i < len / 2
      invariant 0 <= i <= len / 2
      invariant forall k :: 0 <= k < i ==> str[k] == old(str[n - 1 - k]) && str[n - 1 - k] == old(str[k])
      invariant forall k :: i <= k < n - i ==> str[k] == old(str[k])
      invariant forall k :: n <= k < str.Length ==> str[k] == old(str[k])
    {
      var temp := str[i];
      str[i] := str[len - 1 - i];
      str[len - 1 - i] := temp;
      i := i + 1;
    }
    forall k | 0 <= k < n ensures str[..n][k] == Reverse(old(str[..n]))[k] {
    }
  }

  /** The loop of int_to_str. */
  method StoreDigits(num: int, buffer: array<char>) returns (i: nat)
    requires |Reversed(num)| < buffer.Length
    modifies buffer
    ensures i == |Reversed(num)| && buffer[..i] == Reversed(num)
    ensures forall k :: i <= k < buffer.Length ==> buffer[k] == old(buffer[k])
  {
    i := 0;
    var n := num;
    while n > 0
      invariant i + |Reversed(n)| == |Reversed(num)| && buffer[..i] + Reversed(n) == Reversed(num)
      invariant forall k :: i <= k < buffer.Length ==> buffer[k] == old(buffer[k])
    {
      ghost var before := buffer[..i];
      buffer[i] := Digit(n % 10);
      assert buffer[..i + 1] == before + [Digit(n % 10)];
      n, i := n / 10, i + 1;
    }
  }

  /** int_to_str. Bytes of the buffer past the terminator stay as they are. */
  method IntToStr(num: int32, buffer: array<char>)
    requires |Text(num)| < buffer.Length
    modifies buffer
    ensures buffer[..|Text(num)|] == Text(num) && buffer[|Text(num)|] == '\0'
    ensures forall k :: |Text(num)| < k < buffer.Length ==> buffer[k] == old(buffer[k])
  {
    if num == 0 {
      buffer[0] := '0';
      buffer[1] := '\0';
      return;
    }
    var n: int32 := if num < 0 then Negate(num) else num;
    ghost var r := if num < 0 then Reversed(n) + "-" else Reversed(n);
    assert Text(num) == Reverse(r);
    NoNul(n);
    hide Reversed, Negate, Text;
    var i := StoreDigits(n, buffer);
    if num < 0 {
      buffer[i] := '-';
      i := i + 1;
    }
    buffer[i] := '\0';
    assert buffer[..i] == r;
    assert forall k :: 0 <= k < i ==> buffer[k] == r[k];
    ReverseStr(buffer, i);
  }
}
