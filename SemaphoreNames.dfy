/**
  The names of program.c's named semaphores: the prefix "/flower_sem_"
  followed by the flower index printed in decimal (`"%s%d"`). The same
  formula is evaluated when the semaphores are created and when they are
  unlinked, so it is defined once here, together with its inverse.
*/
module SemaphoreNames {

  datatype Option<T> = None | Some(value: T)

  /** Prefix shared by every flower semaphore name. */
  const SemNamePrefix: string := "/flower_sem_"

  /** Size of the buffer the name is formatted into, terminating NUL included. */
  const SemNameBufferSize: nat := 256

  predicate IsDigit(c: char) {
    '0' <= c <= '9'
  }

  predicate AllDigits(s: string) {
    forall k :: 0 <= k < |s| ==> IsDigit(s[k])
  }

  function DigitChar(d: nat): (c: char)
    requires d < 10
    ensures IsDigit(c) && c as int - '0' as int == d
  {
    ('0' as int + d) as char
  }

  /**
    A natural number as `%d` prints it: at least one digit, only digits,
    and no leading zero unless the number is zero.
  */
  function Decimal(n: nat): (r: string)
    ensures |r| >= 1 && AllDigits(r)
    ensures r[0] == '0' ==> n == 0
    ensures |r| == 1 <==> n < 10
    decreases n
  {
    if n < 10 then [DigitChar(n)] else Decimal(n / 10) + [DigitChar(n % 10)]
  }

  /** The value of a string of decimal digits, most significant first. */
  function DecimalValue(s: string): (n: nat)
    requires AllDigits(s)
    decreases |s|
  {
    if s == [] then 0
    else DecimalValue(s[..|s| - 1]) * 10 + (s[|s| - 1] as int - '0' as int)
  }

  /** Reading back what `Decimal` printed gives the number again. */
  lemma {:induction false} DecimalRoundTrip(n: nat)
    ensures DecimalValue(Decimal(n)) == n
    decreases n
  {
    if n >= 10 {
      DecimalRoundTrip(n / 10);
      var r := Decimal(n);
      assert r[..|r| - 1] == Decimal(n / 10);
    }
  }

  /** The name of flower `i`'s semaphore. */
  function SemName(i: nat): (r: string)
    ensures |r| > |SemNamePrefix| && r[..|SemNamePrefix|] == SemNamePrefix
    ensures AllDigits(r[|SemNamePrefix|..])
  {
    SemNamePrefix + Decimal(i)
  }

  /** The flower index a semaphore name stands for, if it is one of these names. */
  function SemIndex(name: string): (r: Option<nat>) {
    if |name| > |SemNamePrefix| && name[..|SemNamePrefix|] == SemNamePrefix
       && AllDigits(name[|SemNamePrefix|..])
    then Some(DecimalValue(name[|SemNamePrefix|..]))
    else None
  }

  /** The index can be read back from the name. */
  lemma SemNameRoundTrip(i: nat)
    ensures SemIndex(SemName(i)) == Some(i)
  {
    assert SemName(i)[|SemNamePrefix|..] == Decimal(i);
    DecimalRoundTrip(i);
  }

  /** Distinct flowers get distinct semaphore names. */
  lemma SemNameInjective(i: nat, j: nat)
    ensures SemName(i) == SemName(j) <==> i == j
  {
    SemNameRoundTrip(i);
    SemNameRoundTrip(j);
  }

  /**
    For the ten flowers the index is one digit, so the name is the prefix and
    that digit and fits the formatting buffer without truncation.
  */
  lemma SemNameOfFlower(i: nat)
    requires i < 10
    ensures SemName(i) == SemNamePrefix + [DigitChar(i)]
    ensures |SemName(i)| < SemNameBufferSize
  {
  }
}
