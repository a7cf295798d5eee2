/** Small pieces of text: lower case and decimal numbers. */
module Text {

  function Lower(s: string): string {
    if s == "" then "" else [if 'A' <= s[0] <= 'Z' then s[0] - 'A' + 'a' else s[0]] + Lower(s[1..])
  }

  /** The same text with A to Z as a to z, letter by letter. */
  predicate IsLowerOf(low: string, s: string) {
    |low| == |s| && forall i | 0 <= i < |s| :: low[i] == if 'A' <= s[i] <= 'Z' then s[i] - 'A' + 'a' else s[i]
  }

  lemma {:induction false} LowerIs(s: string)
    ensures IsLowerOf(Lower(s), s)
  {
    if s != "" {
      LowerIs(s[1..]);
    }
  }

  /** The number that decimal digits stand for. */
  function Value(s: string): int {
    if s == "" then 0 else 10 * Value(s[..|s| - 1]) + (s[|s| - 1] as int - '0' as int)
  }

  function Digits(n: nat): (r: string)
    ensures r != "" && forall c | c in r :: '0' <= c <= '9'
  {
    if n < 10 then [n as char + '0'] else Digits(n / 10) + [(n % 10) as char + '0']
  }

  lemma DigitsLength(n: nat)
    ensures |Digits(n)| == 1 <==> n < 10
  {
  }

  /** Different numbers are written differently. */
  lemma {:induction false} DigitsInjective(m: nat, n: nat)
    requires Digits(m) == Digits(n)
    ensures m == n
  {
    DigitsLength(m);
    DigitsLength(n);
    if m >= 10 && n >= 10 {
      var a, b := Digits(m / 10), Digits(n / 10);
      assert (a + [(m % 10) as char + '0'])[..|a|] == a;
      assert (b + [(n % 10) as char + '0'])[..|b|] == b;
      assert Digits(m)[|a|] == (m % 10) as char + '0' && Digits(n)[|b|] == (n % 10) as char + '0';
      DigitsInjective(m / 10, n / 10);
    } else if m < 10 && n < 10 {
      assert Digits(m)[0] == Digits(n)[0];
    }
  }

  lemma {:induction false} DigitsValue(n: nat)
    ensures Value(Digits(n)) == n
    ensures |Digits(n)| > 1 ==> Digits(n)[0] != '0'
  {
    if n >= 10 {
      DigitsValue(n / 10);
      var front := Digits(n / 10);
      assert Digits(n)[..|Digits(n)| - 1] == front;
      if |front| == 1 {
        DigitsLength(n / 10);
      }
    } else {
      assert Digits(n)[..0] == "";
    }
  }
}
