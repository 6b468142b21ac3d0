/** Decimal numbers as text. */
module Decimal {
  predicate Digits(s: string) {
    forall i :: 0 <= i < |s| ==> '0' <= s[i] <= '9'
  }

  function Print(n: nat): (s: string)
    ensures s != [] && Digits(s) && (s[0] == '0' ==> n == 0)
    decreases n
  {
    (if n < 10 then [] else Print(n / 10)) + [('0' as int + n % 10) as char]
  }

  /** The value of a text of digits. */
  function Value(s: string): (v: int)
    requires Digits(s)
    ensures v >= 0
    decreases |s|
  {
    if s == [] then 0 else Value(s[..|s| - 1]) * 10 + (s[|s| - 1] as int - '0' as int)
  }

  lemma {:induction false} ValueOfPrint(n: nat)
    ensures Value(Print(n)) == n
    decreases n
  {
    var s := Print(n);
    if n < 10 {
      assert s[..|s| - 1] == [];
    } else {
      assert s[..|s| - 1] == Print(n / 10);
      ValueOfPrint(n / 10);
    }
  }

  lemma {:induction false} Positive(s: string)
    requires Digits(s) && s != [] && s[0] != '0'
    ensures Value(s) > 0
    decreases |s|
  {
    if |s| > 1 {
      Positive(s[..|s| - 1]);
    }
  }

  /** Only a leading zero keeps a text of digits from being the printed form of its value. */
  lemma {:induction false} PrintOfValue(s: string)
    requires Digits(s) && s != [] && (s[0] != '0' || |s| == 1)
    ensures Print(Value(s)) == s
    decreases |s|
  {
    var front, last := s[..|s| - 1], s[|s| - 1] as int - '0' as int;
    assert s == front + [s[|s| - 1]];
    if |s| == 1 {
      assert front == [] && Value(s) == last;
    } else {
      Positive(front);
      PrintOfValue(front);
      assert Value(s) / 10 == Value(front) && Value(s) % 10 == last;
    }
  }

  lemma {:induction false} Longer(n: nat, limit: nat, width: nat)
    requires n < limit && limit == Power10(width) && width > 0
    ensures |Print(n)| <= width
    decreases width
  {
    if n >= 10 {
      assert n / 10 < Power10(width - 1);
      Longer(n / 10, Power10(width - 1), width - 1);
    }
  }

  function Power10(width: nat): nat {
    if width == 0 then 1 else 10 * Power10(width - 1)
  }
}
