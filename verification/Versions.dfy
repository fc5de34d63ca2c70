/** Is a release newer than the running build? Versions are dotted numbers, perhaps after a "v", and a
    build's own version may carry a "-suffix" that names commits on top of the release. */
module Versions {
  import opened Text

  const MAX_INT := 0x7fff_ffff_ffff_ffff

  // ----- reading a version -----

  function TrimV(s: string): string {
    if s != "" && s[0] == 'v' then s[1..] else s
  }

  /** The first place of the character, or -1. */
  function Index(s: string, c: char): (i: int)
    ensures -1 <= i < |s|
    ensures i >= 0 ==> s[i] == c && c !in s[..i]
    ensures i < 0 ==> c !in s
  {
    if s == "" then -1
    else if s[0] == c then 0
    else
      assert s == [s[0]] + s[1..];
      var i := Index(s[1..], c);
      if i < 0 then -1 else
        assert s[..i + 1] == [s[0]] + s[1..][..i];
        i + 1
  }

  /** The build's version without its suffix; a '-' at the very front starts no suffix. */
  function Base(current: string): string {
    var i := Index(current, '-');
    if i > 0 then current[..i] else current
  }

  function Split(s: string, c: char): (parts: seq<string>)
    ensures |parts| > 0
  {
    if s == "" then [""] else
      var rest := Split(s[1..], c);
      if s[0] == c then [""] + rest else [[s[0]] + rest[0]] + rest[1..]
  }

  predicate AllDigits(s: string) {
    forall i :: 0 <= i < |s| ==> '0' <= s[i] <= '9'
  }

  function Value(digits: string): nat
    requires AllDigits(digits)
  {
    if digits == "" then 0 else
      10 * Value(digits[..|digits| - 1]) + (digits[|digits| - 1] - '0') as nat
  }

  /** Anything that is no number reads as 0; what does not fit 64 bits reads as the nearest that does. */
  function Atoi(s: string): int {
    var signed := s != "" && (s[0] == '-' || s[0] == '+');
    var digits := if signed then s[1..] else s;
    if digits == "" || !AllDigits(digits) then 0
    else
      var v: int := Value(digits);
      if signed && s[0] == '-' then (if v > MAX_INT + 1 then -MAX_INT - 1 else -v)
      else (if v > MAX_INT then MAX_INT else v)
  }

  function Numbers(version: string): seq<int> {
    Read(Split(version, '.'))
  }

  function Read(parts: seq<string>): seq<int> {
    seq(|parts|, i requires 0 <= i < |parts| => Atoi(parts[i]))
  }

  /** What is compared on each side. */
  function Offered(latest: string): seq<int> { Numbers(TrimV(latest)) }
  function Running(current: string): seq<int> { Numbers(Base(TrimV(current))) }

  // ----- the comparison -----

  /** a is greater where the two first differ, or goes on after b ends. */
  ghost predicate Newer(a: seq<int>, b: seq<int>) {
    exists k :: 0 <= k <= |b| && NewerAt(a, b, k)
  }

  ghost predicate NewerAt(a: seq<int>, b: seq<int>, k: nat)
    requires k <= |b|
  {
    k < |a| && a[..k] == b[..k] && (k == |b| || a[k] > b[k])
  }

  method IsNewerVersion(latest: string, current: string) returns (newer: bool)
    ensures newer <==> Newer(Offered(latest), Running(current))
  {
    var latest', current' := TrimV(latest), TrimV(current);
    var currentBase := current';
    var idx := Index(current', '-');
    if idx > 0 {
      currentBase := current'[..idx];
    }
    newer := ComparesNewer(Split(latest', '.'), Split(currentBase, '.'));
  }

  method ComparesNewer(latestParts: seq<string>, currentParts: seq<string>) returns (newer: bool)
    ensures newer <==> Newer(Read(latestParts), Read(currentParts))
  {
    ghost var a, b := Read(latestParts), Read(currentParts);
    var i := 0;
    while i < |latestParts| && i < |currentParts|
      invariant 0 <= i <= |latestParts| && i <= |currentParts|
      invariant a[..i] == b[..i]
    {
      var latestNum, currentNum := Atoi(latestParts[i]), Atoi(currentParts[i]);
      if latestNum > currentNum {
        assert NewerAt(a, b, i);
        return true;
      }
      if latestNum < currentNum {
        NotNewer(a, b, i);
        return false;
      }
      i := i + 1;
    }
    newer := |latestParts| > |currentParts|;
    if newer {
      assert NewerAt(a, b, i);
    } else {
      NotNewer(a, b, i);
    }
  }

  lemma NotNewer(a: seq<int>, b: seq<int>, i: nat)
    requires i <= |a| && i <= |b| && a[..i] == b[..i]
    requires i == |a| || (i < |b| && a[i] < b[i])
    ensures !Newer(a, b)
  {
    forall k | 0 <= k <= |b| ensures !NewerAt(a, b, k) {
      if k < i {
        assert a[..i][k] == b[..i][k];
      } else if i < k <= |a| {
        assert a[..k][i] == a[i] && b[..k][i] == b[i];
      }
    }
  }

  // ----- the order -----

  /** Exactly one of newer, same and older. */
  lemma {:induction false} Trichotomy(a: seq<int>, b: seq<int>)
    ensures !Newer(a, a)
    ensures Newer(a, b) || a == b || Newer(b, a)
    ensures !(Newer(a, b) && Newer(b, a))
  {
    NotNewer(a, a, |a|);
    var k := Agree(a, b);
    if k == |a| && k == |b| {
      assert a == a[..k] && b == b[..k];
    } else if k == |a| || (k < |b| && a[k] < b[k]) {
      NotNewer(a, b, k);
      assert NewerAt(b, a, k);
    } else {
      NotNewer(b, a, k);
      assert NewerAt(a, b, k);
    }
    if a == b { NotNewer(b, a, |a|); }
  }

  /** How many numbers from the front the two have in common. */
  function Agree(a: seq<int>, b: seq<int>): (k: nat)
    ensures k <= |a| && k <= |b| && a[..k] == b[..k]
    ensures k == |a| || k == |b| || a[k] != b[k]
  {
    if a == [] || b == [] || a[0] != b[0] then 0 else
      var k := Agree(a[1..], b[1..]);
      assert a[..k + 1] == [a[0]] + a[1..][..k] && b[..k + 1] == [b[0]] + b[1..][..k];
      k + 1
  }

  lemma Transitive(a: seq<int>, b: seq<int>, c: seq<int>)
    requires Newer(a, b) && Newer(b, c)
    ensures Newer(a, c)
  {
    var i :| 0 <= i <= |b| && NewerAt(a, b, i);
    var j :| 0 <= j <= |c| && NewerAt(b, c, j);
    var k := if i < j then i else j;
    assert a[..k] == a[..i][..k] && b[..k] == b[..i][..k] && b[..k] == b[..j][..k] && c[..k] == c[..j][..k];
    if i < j {
      assert b[..j][i] == c[..j][i];
    } else if j < i {
      assert a[..i][j] == b[..i][j];
    }
    assert NewerAt(a, c, k);
  }

  /** A version with more numbers is newer than the version it extends. */
  lemma ExtensionIsNewer(a: seq<int>, more: seq<int>)
    requires more != []
    ensures Newer(a + more, a)
  {
    assert NewerAt(a + more, a, |a|);
  }

  // ----- versions as written -----

  function Shown(numbers: seq<nat>): string
    requires numbers != []
  {
    Decimal(numbers[0]) + if |numbers| == 1 then "" else "." + Shown(numbers[1..])
  }

  /** Written versions are compared as their numbers are, with or without a "v". */
  lemma WrittenVersions(a: seq<nat>, b: seq<nat>)
    requires a != [] && b != []
    requires forall i :: 0 <= i < |a| ==> a[i] <= MAX_INT
    requires forall i :: 0 <= i < |b| ==> b[i] <= MAX_INT
    ensures Offered(Shown(a)) == a == Offered("v" + Shown(a))
    ensures Running(Shown(b)) == b == Running("v" + Shown(b))
  {
    ReadBack(a);
    ReadBack(b);
    ShownIsPlain(a);
    ShownIsPlain(b);
    assert ("v" + Shown(a))[1..] == Shown(a) && ("v" + Shown(b))[1..] == Shown(b);
    assert Index(Shown(b), '-') < 0;
  }

  lemma {:induction false} ReadBack(numbers: seq<nat>)
    requires numbers != [] && forall i :: 0 <= i < |numbers| ==> numbers[i] <= MAX_INT
    ensures Numbers(Shown(numbers)) == numbers
  {
    var first := Decimal(numbers[0]);
    AtoiReadsBack(numbers[0]);
    NumbersOfOne(first);
    if |numbers| == 1 {
      assert first + "" == first;
    } else {
      ReadBack(numbers[1..]);
      NumbersAfterDot(first, Shown(numbers[1..]));
    }
  }

  /** Digits and dots, and a digit first. */
  lemma {:induction false} ShownIsPlain(numbers: seq<nat>)
    requires numbers != []
    ensures '-' !in Shown(numbers) && Shown(numbers) != "" && Shown(numbers)[0] != 'v'
  {
    DecimalReadsBack(numbers[0]);
    assert '0' <= Decimal(numbers[0])[0] <= '9';
    if |numbers| > 1 { ShownIsPlain(numbers[1..]); }
  }

  lemma AtoiReadsBack(n: nat)
    requires n <= MAX_INT
    ensures var d := Decimal(n);
            Atoi(d) == n && '.' !in d
  {
    DecimalReadsBack(n);
    var d := Decimal(n);
    assert '0' <= d[0] <= '9';
  }

  lemma NumbersOfOne(first: string)
    requires '.' !in first
    ensures Numbers(first) == [Atoi(first)]
  {
    SplitUpTo(first, "");
    assert first + "" == first;
  }

  lemma NumbersAfterDot(first: string, rest: string)
    requires '.' !in first
    ensures Numbers(first + ("." + rest)) == [Atoi(first)] + Numbers(rest)
  {
    var parts := Split(rest, '.');
    assert Split(first + ("." + rest), '.') == [first] + parts by {
      SplitUpTo(first, "." + rest);
      assert ("." + rest)[1..] == rest && first + "" == first;
    }
    assert Read([first] + parts) == [Atoi(first)] + Read(parts);
  }

  lemma {:induction false} SplitUpTo(a: string, b: string)
    requires '.' !in a
    ensures Split(a + b, '.') == [a + Split(b, '.')[0]] + Split(b, '.')[1..]
  {
    if a == "" {
      assert a + b == b && a + Split(b, '.')[0] == Split(b, '.')[0];
    } else {
      assert (a + b)[1..] == a[1..] + b;
      SplitUpTo(a[1..], b);
      assert [a[0]] + (a[1..] + Split(b, '.')[0]) == a + Split(b, '.')[0];
    }
  }

  lemma {:induction false} DecimalReadsBack(n: nat)
    ensures AllDigits(Decimal(n)) && Decimal(n) != "" && Value(Decimal(n)) == n
  {
    if n >= 10 { DecimalReadsBack(n / 10); }
    var front := if n < 10 then "" else Decimal(n / 10);
    assert Decimal(n)[..|front|] == front;
  }

  // ----- suffixes -----

  /** A "-suffix" on the build's version never changes an answer exactly if there is a version before it
      that does not itself start with '-'. */
  lemma SuffixIsIgnoredIff(base: string)
    ensures (forall latest, suffix ::
              Newer(Offered(latest), Running(base + "-" + suffix)) == Newer(Offered(latest), Running(base)))
            <==> TrimV(base) != "" && TrimV(base)[0] != '-'
  {
    var bare := TrimV(base);
    if bare != "" && bare[0] != '-' {
      forall latest, suffix
        ensures Newer(Offered(latest), Running(base + "-" + suffix)) == Newer(Offered(latest), Running(base))
      {
        TrimVConcat(base, suffix);
        BaseIgnores(bare, suffix);
      }
    } else {
      var suffix := ".1";
      var longer := base + "-" + suffix;
      TrimVConcat(base, suffix);
      IndexAtFront(bare, "-" + suffix);
      SplitConcat(bare, "-" + suffix);
      DashDotOne();
      assert "-" + suffix == "-.1";
      assert Running(base) == Offered(base) && Running(longer) == Offered(longer);
      assert |Running(longer)| == |Running(base)| + 1;
      Trichotomy(Offered(longer), Offered(base));
      Trichotomy(Offered(base), Offered(longer));
      var latest := if Newer(Offered(longer), Offered(base)) then longer else base;
      assert Newer(Offered(latest), Running(base + "-" + suffix)) != Newer(Offered(latest), Running(base));
    }
  }

  lemma DashDotOne()
    ensures |Split("-.1", '.')| == 2
  {
    assert "1"[1..] == "" && ".1"[1..] == "1" && "-.1"[1..] == ".1";
  }

  lemma TrimVConcat(base: string, suffix: string)
    ensures TrimV(base + "-" + suffix) == TrimV(base) + ("-" + suffix)
  {
  }

  lemma {:induction false} BaseIgnores(bare: string, suffix: string)
    requires bare != "" && bare[0] != '-'
    ensures Base(bare + ("-" + suffix)) == Base(bare)
  {
    var longer := bare + ("-" + suffix);
    var i := Index(bare, '-');
    assert longer[|bare|] == '-';
    var k := if i < 0 then |bare| else i;
    assert longer[k] == '-' && longer[..k] == bare[..k];
    IndexIs(longer, '-', k);
  }

  lemma {:induction false} IndexIs(s: string, c: char, k: nat)
    requires k < |s| && s[k] == c && c !in s[..k]
    ensures Index(s, c) == k
  {
    if k > 0 {
      assert s[..k] == [s[0]] + s[1..][..k - 1];
      IndexIs(s[1..], c, k - 1);
    }
  }

  lemma IndexAtFront(bare: string, rest: string)
    requires rest != "" && rest[0] == '-' && (bare == "" || bare[0] == '-')
    ensures Base(bare) == bare && Base(bare + rest) == bare + rest
  {
  }

  function FirstPart(s: string): string {
    Split(s, '.')[0]
  }

  function LastPart(s: string): string {
    Split(s, '.')[|Split(s, '.')| - 1]
  }

  function Joined(front: seq<string>, rest: seq<string>): seq<string>
    requires front != [] && rest != []
  {
    front[..|front| - 1] + [front[|front| - 1] + rest[0]] + rest[1..]
  }

  lemma JoinedMore(first: string, tail: seq<string>, rest: seq<string>)
    requires tail != [] && rest != []
    ensures Joined([first] + tail, rest) == [first] + Joined(tail, rest)
  {
    assert ([first] + tail)[..|tail|] == [first] + tail[..|tail| - 1];
  }

  lemma JoinedHead(first: string, tail: seq<string>, rest: seq<string>)
    requires tail != [] && rest != []
    ensures Joined([first + tail[0]] + tail[1..], rest) == [first + Joined(tail, rest)[0]] + Joined(tail, rest)[1..]
  {
    if |tail| == 1 {
      assert (first + tail[0]) + rest[0] == first + (tail[0] + rest[0]);
    } else {
      JoinedMore(first + tail[0], tail[1..], rest);
      JoinedMore(tail[0], tail[1..], rest);
      assert tail == [tail[0]] + tail[1..];
    }
  }

  /** Splitting two texts in a row joins the last part of one with the first part of the other. */
  lemma {:induction false} SplitConcat(a: string, b: string)
    ensures Split(a + b, '.') == Joined(Split(a, '.'), Split(b, '.'))
  {
    var rest := Split(b, '.');
    if a == "" {
      assert a + b == b && "" + rest[0] == rest[0];
    } else {
      assert (a + b)[1..] == a[1..] + b;
      SplitConcat(a[1..], b);
      var tail := Split(a[1..], '.');
      JoinedMore("", tail, rest);
      JoinedHead([a[0]], tail, rest);
    }
  }

  lemma {:induction false} PartsAre(s: string)
    ensures |Split(s, '.')| > 1 <==> '.' in s
    ensures forall i, c :: 0 <= i < |Split(s, '.')| && c in Split(s, '.')[i] ==> c in s
  {
    if s != "" {
      assert s == [s[0]] + s[1..];
      PartsAre(s[1..]);
    }
  }

  /** With a '-' in it after the front, a text is no number; with one at the front, it is none above 0. */
  lemma DashIsNoNumber(p: string, x: string)
    requires '-' !in p && x != "" && x[0] == '-'
    ensures Atoi(p) >= 0 && Atoi(p + x) <= 0
  {
    if p != "" {
      var signed := p[0] == '+';
      var digits := if signed then (p + x)[1..] else p + x;
      assert digits[if signed then |p| - 1 else |p|] == '-';
      assert !AllDigits(digits);
    } else {
      assert p + x == x;
    }
  }

  /** Only the running version has its suffix taken off, so a text can be newer than itself: exactly if
      its suffix has a dot in it, and the number before the suffix is 0 and reads as 0 with the suffix up
      to that dot, as "6.0.0-rc.1" does. */
  lemma NewerThanItselfIff(s: string)
    ensures var bare := TrimV(s);
            var i := Index(bare, '-');
            Newer(Offered(s), Running(s)) <==>
              && i > 0 && '.' in bare[i..]
              && Atoi(LastPart(bare[..i])) == 0 && Atoi(LastPart(bare[..i]) + FirstPart(bare[i..])) == 0
  {
    var bare := TrimV(s);
    var i := Index(bare, '-');
    if i <= 0 {
      Trichotomy(Offered(s), Running(s));
    } else {
      SuffixIsCompared(bare[..i], bare[i..]);
      assert bare[..i] + bare[i..] == bare;
    }
  }

  /** So a build of a release candidate is offered itself. */
  lemma ReleaseCandidateIsNewerThanItself()
    ensures Newer(Offered("6.0.0-rc.1"), Running("6.0.0-rc.1"))
  {
    var s := "6.0.0-rc.1";
    IndexIs(s, '-', 5);
    assert s[..5] == "6.0.0" && s[5..] == "-rc.1";
    LastOfBase();
    FirstOfSuffix();
    NewerThanItselfIff(s);
  }

  lemma LastOfBase()
    ensures LastPart("6.0.0") == "0" && Atoi("0") == 0
  {
    OnePart("0");
    assert "0.0"[1..] == ".0" && ".0"[1..] == "0" && "6.0.0"[1..] == ".0.0" && ".0.0"[1..] == "0.0";
    assert Split(".0", '.') == ["", "0"];
    assert Split("0.0", '.') == ["0", "0"];
    assert Split(".0.0", '.') == ["", "0", "0"];
    assert "0"[..0] == "";
  }

  lemma FirstOfSuffix()
    ensures '.' in "-rc.1" && FirstPart("-rc.1") == "-rc" && Atoi("0" + "-rc") == 0
  {
    assert "-rc" + ".1" == "-rc.1" && ".1"[1..] == "1";
    SplitUpTo("-rc", ".1");
    assert Split(".1", '.')[0] == "" && "-rc" + "" == "-rc";
    assert "-rc.1"[3] == '.' && ("0" + "-rc")[1] == '-';
  }

  lemma OnePart(s: string)
    requires '.' !in s
    ensures Split(s, '.') == [s]
  {
    SplitUpTo(s, "");
    assert s + "" == s;
  }

  lemma SuffixIsCompared(base: string, suffix: string)
    requires '-' !in base && suffix != "" && suffix[0] == '-'
    ensures Newer(Numbers(base + suffix), Numbers(base)) <==>
              '.' in suffix && Atoi(LastPart(base)) == 0 && Atoi(LastPart(base) + FirstPart(suffix)) == 0
  {
    var parts, p, x := Split(base, '.'), LastPart(base), FirstPart(suffix);
    var front, more := parts[..|parts| - 1], Split(suffix, '.')[1..];
    assert '-' !in p by { PartsAre(base); }
    assert more != [] <==> '.' in suffix by { PartsAre(suffix); }
    assert x != "" && x[0] == '-' by {
      assert x == [suffix[0]] + Split(suffix[1..], '.')[0];
    }
    DashIsNoNumber(p, x);
    assert parts == front + [p];
    assert Split(base + suffix, '.') == front + [p + x] + more by { SplitConcat(base, suffix); }
    LastIsCompared(front, p, p + x, more);
  }

  /** Two lists that differ in one part only, and in what comes after it. */
  lemma LastIsCompared(front: seq<string>, p: string, q: string, more: seq<string>)
    requires Atoi(p) >= 0 && Atoi(q) <= 0
    ensures Newer(Read(front + [q] + more), Read(front + [p])) <==> more != [] && Atoi(p) == 0 && Atoi(q) == 0
  {
    var m, a, b := |front|, Read(front + [q] + more), Read(front + [p]);
    assert a[..m] == b[..m] && a[m] == Atoi(q) && b[m] == Atoi(p);
    if a[m] < b[m] {
      NotNewer(a, b, m);
    } else {
      assert a[..m + 1] == a[..m] + [a[m]] && b[..m + 1] == b[..m] + [b[m]];
      if more == [] {
        NotNewer(a, b, m + 1);
      } else {
        assert NewerAt(a, b, m + 1);
      }
    }
  }
}
