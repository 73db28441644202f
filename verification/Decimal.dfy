/** Decimal rendering as done by `%d` and `%03d`. */
module Decimal {
  function Digit(n: nat): char
    requires n < 10
  {
    "0123456789"[n]
  }

  /** `%d` of a natural number. */
  function Render(n: nat): (s: string)
    ensures s != "" && forall c :: c in s ==> '0' <= c <= '9'
  {
    if n < 10 then [Digit(n)] else Render(n / 10) + [Digit(n % 10)]
  }

  /** `%03d`. */
  function Render3(n: nat): string {
    if n < 10 then "00" + Render(n) else if n < 100 then "0" + Render(n) else Render(n)
  }

  function Value(s: string): int {
    if s == "" then 0 else 10 * Value(s[..|s| - 1]) + (s[|s| - 1] as int - '0' as int)
  }

  lemma {:induction false} ValueOfRender(n: nat)
    ensures Value(Render(n)) == n
  {
    if n >= 10 {
      ValueOfRender(n / 10);
      var s := Render(n);
      assert s[..|s| - 1] == Render(n / 10);
    } else {
      assert Render(n)[..0] == "";
    }
  }

  lemma {:induction false} LeadingZero(s: string)
    ensures Value("0" + s) == Value(s)
  {
    var t := "0" + s;
    if s == "" {
      assert t[..0] == "";
    } else {
      LeadingZero(s[..|s| - 1]);
      assert t[..|t| - 1] == "0" + s[..|s| - 1];
    }
  }

  /** No rendering has a superfluous zero in front, and the padded one has at least three digits and
      no more zeros than that takes. */
  lemma {:induction false} NoLeadingZeros(n: nat)
    ensures |Render(n)| > 1 ==> Render(n)[0] != '0'
    ensures |Render3(n)| >= 3 && (|Render3(n)| > 3 ==> Render3(n)[0] != '0')
  {
    if n >= 10 {
      NoLeadingZeros(n / 10);
      if n >= 100 {
        assert |Render(n / 10)| > 1;
      }
    }
  }

  /** Renderings can be read back, however many digits they have. */
  lemma ValueOfRender3(n: nat)
    ensures Value(Render3(n)) == n
  {
    ValueOfRender(n);
    LeadingZero(Render(n));
    LeadingZero("0" + Render(n));
    assert "00" + Render(n) == "0" + ("0" + Render(n));
    hide Render, Value;
  }
}
