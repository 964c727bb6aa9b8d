/** Names the node builds by concatenation: "<nf id>_<port number>" for the port of a
    network function, and "<graph id>_<rule id>" for a rule of a graph inside LSI-0. */
module Names {

  /** `stringstream << unsigned`: the decimal digits, most significant first. */
  function Decimal(n: nat): (s: string)
    ensures |s| > 0
    ensures forall i :: 0 <= i < |s| ==> '0' <= s[i] <= '9'
  {
    if n < 10 then [Digit(n)] else Decimal(n / 10) + [Digit(n % 10)]
  }

  function Digit(d: nat): (c: char)
    requires d < 10
    ensures '0' <= c <= '9' && c as int == '0' as int + d
  {
    (d + '0' as int) as char
  }

  /** The number the digits stand for. */
  function Number(s: string): nat
    requires forall i :: 0 <= i < |s| ==> '0' <= s[i] <= '9'
  {
    if s == "" then 0 else 10 * Number(s[..|s| - 1]) + (s[|s| - 1] as int - '0' as int)
  }

  /** They stand for the number, and do not begin with a zero unless it is zero. */
  lemma {:induction false} DecimalIsNumber(n: nat)
    ensures Number(Decimal(n)) == n && (Decimal(n)[0] == '0' ==> n == 0)
  {
    var s := Decimal(n);
    assert s[|s| - 1] == Digit(n % 10);
    if n >= 10 {
      DecimalIsNumber(n / 10);
      assert s[..|s| - 1] == Decimal(n / 10);
    } else {
      assert s[..0] == "";
    }
  }

  lemma {:induction false} DecimalInjective(m: nat, n: nat)
    requires Decimal(m) == Decimal(n)
    ensures m == n
  {
    var s, t := Decimal(m), Decimal(n);
    assert s[|s| - 1] == Digit(m % 10) && t[|t| - 1] == Digit(n % 10);
    if m >= 10 && n >= 10 {
      assert s[..|s| - 1] == Decimal(m / 10) && t[..|t| - 1] == Decimal(n / 10);
      DecimalInjective(m / 10, n / 10);
    }
  }

  function NfPortName(nf: string, port: nat): string {
    nf + "_" + Decimal(port)
  }

  /** The digits hold no '_': none comes after the one that ends the function's id. */
  lemma LastUnderscore(nf: string, port: nat)
    ensures forall i :: |nf| < i < |NfPortName(nf, port)| ==> NfPortName(nf, port)[i] != '_'
  {
    forall i | |nf| < i < |NfPortName(nf, port)|
      ensures NfPortName(nf, port)[i] != '_'
    {
      assert NfPortName(nf, port)[i] == Decimal(port)[i - |nf| - 1];
    }
  }

  lemma NameParts(nf: string, port: nat)
    ensures var s := NfPortName(nf, port);
      |nf| < |s| && s[|nf|] == '_' && s[..|nf|] == nf && s[|nf| + 1..] == Decimal(port)
  {
  }

  /** The last '_' ends the function's id whatever that id holds. */
  lemma NfPortNameInjective(nf: string, port: nat, nf': string, port': nat)
    requires NfPortName(nf, port) == NfPortName(nf', port')
    ensures nf == nf' && port == port'
  {
    NameParts(nf, port);
    NameParts(nf', port');
    LastUnderscore(nf, port);
    LastUnderscore(nf', port');
    DecimalInjective(port, port');
  }

  function RuleName(graph: string, rule: string): string {
    graph + "_" + rule
  }

  /** Two rules share a name in LSI-0 only if one graph id extends the other through a '_'. */
  lemma RuleNameClash(g: string, r: string, g': string, r': string)
    requires RuleName(g, r) == RuleName(g', r')
    ensures (g == g' && r == r') || g + "_" <= g' || g' + "_" <= g
  {
    var s := RuleName(g, r);
    assert s[..|g|] == g && s[..|g'|] == g' && s[|g|] == '_' && s[|g'|] == '_';
    if |g| < |g'| {
      assert s[..|g| + 1] == g + "_";
    } else if |g'| < |g| {
      assert s[..|g'| + 1] == g' + "_";
    } else {
      assert s[|g| + 1..] == r && s[|g'| + 1..] == r';
    }
  }

  /** Such ids do clash: every pair of graph ids, one extending the other, has clashing rules. */
  lemma RuleNamesOverlap(g: string, rest: string, r: string)
    ensures RuleName(g, rest + "_" + r) == RuleName(g + "_" + rest, r)
  {
    assert g + "_" + (rest + "_" + r) == g + "_" + rest + "_" + r;
  }
}
