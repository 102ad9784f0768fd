/** Role-card versions (cell_fabric.py): reading a version text, and which version may
    follow which. */
module CardVersions {
  import opened Wrappers
  import opened Calculator

  datatype Semver = Semver(major: nat, minor: nat, patch: nat)

  predicate AtLeast(a: Semver, b: Semver) {
    a.major > b.major || (a.major == b.major && (a.minor > b.minor || (a.minor == b.minor && a.patch >= b.patch)))
  }

  predicate Compatible(pinned: Semver, candidate: Semver) {
    pinned.major == candidate.major && AtLeast(candidate, pinned)
  }

  // ---- Reading a version ---------------------------------------------------

  predicate IsSpace(c: char) {
    c in " \t\n\r"
  }

  function Strip(s: string): string {
    if s == [] then []
    else if IsSpace(s[0]) then Strip(s[1..])
    else if IsSpace(s[|s| - 1]) then Strip(s[..|s| - 1])
    else s
  }

  function NumberValue(digits: string): nat {
    if digits == [] || !IsDigit(digits[|digits| - 1]) then 0
    else 10 * NumberValue(digits[..|digits| - 1]) + (digits[|digits| - 1] - '0') as nat
  }

  predicate IsNumber(s: string) {
    s != [] && forall i | 0 <= i < |s| :: IsDigit(s[i])
  }

  /** The text is three numbers with points between them. */
  predicate IsTriple(s: string, a: string, b: string, c: string) {
    IsNumber(a) && IsNumber(b) && IsNumber(c) && s == a + "." + b + "." + c
  }

  /** What stands before the first point after a number, and what stands behind it. */
  function CutNumber(s: string): Option<(string, string)> {
    var n := DigitRun(s);
    if n == 0 || n == |s| || s[n] != '.' then None else Some((s[..n], s[n + 1..]))
  }

  function ReadTriple(s: string): Option<Semver> {
    var first := CutNumber(s);
    if first.None? then None
    else
      var second := CutNumber(first.value.1);
      if second.None? || DigitRun(second.value.1) != |second.value.1| || second.value.1 == [] then None
      else Some(Semver(NumberValue(first.value.0), NumberValue(second.value.0), NumberValue(second.value.1)))
  }

  /** The version a text stands for, with space around it ignored. */
  function ParseSemver(version: string): Option<Semver> {
    ReadTriple(Strip(version))
  }

  lemma CutExactly(s: string, a: string, rest: string)
    ensures IsNumber(a) && s == a + "." + rest <==> CutNumber(s) == Some((a, rest))
  {
    if IsNumber(a) && s == a + "." + rest {
      RunEndsAtPoint(a, rest);
      assert s == a + ("." + rest);
      assert s[..|a|] == a && s[|a|] == '.' && s[|a| + 1..] == rest;
    }
  }

  lemma RunEndsAtPoint(a: string, rest: string)
    requires IsNumber(a)
    ensures DigitRun(a + "." + rest) == |a|
  {
    var s := a + "." + rest;
    var n := DigitRun(s);
    assert s[|a|] == '.';
    assert forall i | 0 <= i < |a| :: s[i] == a[i];
  }

  /** A text is read as a version exactly when it is a triple, and then as its numbers. */
  lemma ReadExactly(s: string, a: string, b: string, c: string)
    ensures IsTriple(s, a, b, c) ==> ReadTriple(s) == Some(Semver(NumberValue(a), NumberValue(b), NumberValue(c)))
    ensures ReadTriple(s).Some? ==> exists x, y, z :: IsTriple(s, x, y, z)
  {
    if IsTriple(s, a, b, c) {
      assert s == a + "." + (b + "." + c);
      CutExactly(s, a, b + "." + c);
      CutExactly(b + "." + c, b, c);
      AllDigits(c);
    }
    if ReadTriple(s).Some? {
      var (x, rest) := CutNumber(s).value;
      CutExactly(s, x, rest);
      var (y, z) := CutNumber(rest).value;
      CutExactly(rest, y, z);
      assert s == x + "." + (y + "." + z);
      assert IsTriple(s, x, y, z);
    }
  }

  lemma AllDigits(c: string)
    requires IsNumber(c)
    ensures DigitRun(c) == |c|
  {
    if c != [] {
      assert IsDigit(c[0]);
      if |c| > 1 { AllDigits(c[1..]); }
    }
  }

  // ---- Writing a version ---------------------------------------------------

  function Decimal(n: nat): string {
    (if n < 10 then [] else Decimal(n / 10)) + ['0' + (n % 10) as char]
  }

  function Rendered(v: Semver): string {
    Decimal(v.major) + "." + Decimal(v.minor) + "." + Decimal(v.patch)
  }

  lemma DecimalReads(n: nat)
    ensures IsNumber(Decimal(n)) && NumberValue(Decimal(n)) == n
  {
    if n >= 10 {
      DecimalReads(n / 10);
      assert Decimal(n)[..|Decimal(n)| - 1] == Decimal(n / 10);
    }
  }

  lemma NoSpaceToStrip(s: string)
    requires s != [] && !IsSpace(s[0]) && !IsSpace(s[|s| - 1])
    ensures Strip(s) == s
  {
  }

  /** Reading what is written gives the version back. */
  lemma VersionRoundTrip(v: Semver)
    ensures ParseSemver(Rendered(v)) == Some(v)
  {
    var a, b, c := Decimal(v.major), Decimal(v.minor), Decimal(v.patch);
    DecimalReads(v.major);
    DecimalReads(v.minor);
    DecimalReads(v.patch);
    var s := Rendered(v);
    assert IsTriple(s, a, b, c);
    assert s[0] == a[0] && s[|s| - 1] == c[|c| - 1];
    NoSpaceToStrip(s);
    ReadExactly(s, a, b, c);
  }

  // ---- Which version may follow --------------------------------------------

  /** None when either text is no version. */
  function VersionsCompatible(pinned: string, candidate: string): Option<bool> {
    if ParseSemver(pinned).None? || ParseSemver(candidate).None? then None
    else Some(Compatible(ParseSemver(pinned).value, ParseSemver(candidate).value))
  }

  lemma CompatibleIsTransitive(a: string, b: string, c: string)
    requires VersionsCompatible(a, b) == Some(true) && VersionsCompatible(b, c) == Some(true)
    ensures VersionsCompatible(a, c) == Some(true)
  {
  }

  /** Two versions that may each follow the other are the same version. */
  lemma CompatibleIsAntisymmetric(a: string, b: string)
    requires VersionsCompatible(a, b) == Some(true) && VersionsCompatible(b, a) == Some(true)
    ensures ParseSemver(a) == ParseSemver(b)
  {
  }
}
