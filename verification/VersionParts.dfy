/** How the parts of a version are read. */
module VersionParts {
  import opened Text
  import opened Versions

  /** How a part is read: digits as their number or the largest there is, with a sign in front or without;
      and anything else as 0. */
  lemma AtoiReads(n: nat)
    ensures Atoi(Decimal(n)) == Atoi("+" + Decimal(n)) == Most(n)
    ensures Atoi("-" + Decimal(n)) == if n <= 0x8000_0000_0000_0000 then 0 - n else -0x8000_0000_0000_0000
  {
    DecimalReadsBack(n);
    AtoiOfDigits(Decimal(n));
  }

  function Most(n: nat): int {
    if n <= 0x7fff_ffff_ffff_ffff then n else 0x7fff_ffff_ffff_ffff
  }

  lemma AtoiOfDigits(d: string)
    requires AllDigits(d) && d != ""
    ensures Atoi(d) == Atoi("+" + d) == Most(Value(d))
    ensures Atoi("-" + d) == if Value(d) <= 0x8000_0000_0000_0000 then 0 - Value(d) else -0x8000_0000_0000_0000
  {
    assert '0' <= d[0] <= '9';
    assert ("+" + d)[1..] == d && ("-" + d)[1..] == d;
  }

  lemma AtoiElse(s: string, i: nat)
    ensures Atoi("") == Atoi("+") == Atoi("-") == 0
    ensures i < |s| && s[i] !in "0123456789" && (i == 0 ==> s[0] !in "+-") ==> Atoi(s) == 0
  {
    assert ("+")[1..] == "" && ("-")[1..] == "";
    if i < |s| && s[i] !in "0123456789" && (i == 0 ==> s[0] !in "+-") {
      OnlyDigits(s[i]);
      if s[0] == '-' || s[0] == '+' {
        assert i > 0 && s[1..][i - 1] == s[i];
      }
    }
  }

  lemma OnlyDigits(c: char)
    ensures '0' <= c <= '9' ==> c in "0123456789"
    ensures c == '+' || c == '-' ==> c in "+-"
  {
    assert forall k: nat :: k < 10 ==> "0123456789"[k] == '0' + k as char;
    if '0' <= c <= '9' {
      assert "0123456789"[(c - '0') as nat] == c;
    }
    assert "+-"[0] == '+' && "+-"[1] == '-';
  }
}
