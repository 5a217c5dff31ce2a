/** Versions as text: the version gate reads ordinary decimal numerals. */
module Numerals {
  import opened Alphabet
  import opened Basics
  import opened Operation
  import opened Config
  import opened Policy
  import Mutation

  /** The numeral of n, by repeated division. */
  function Printed(n: nat): (s: string)
    ensures |s| > 0
  {
    if n < 10 then [DIGITS[n]] else Printed(n / 10) + [DIGITS[n % 10]]
  }

  function Zeros(k: nat): string {
    seq(k, _ => '0')
  }

  /** s is the numeral of n, possibly after leading zeros. */
  ghost predicate NumeralOf(s: string, n: nat) {
    exists k :: s == Zeros(k) + Printed(n)
  }

  const LIMIT := 0x1_0000_0000_0000_0000

  lemma {:induction false} PrintedReads(n: nat)
    ensures AllDigits(Printed(n)) && Decimal(Printed(n)) == n
  {
    DigitAt(n % 10);
    if n >= 10 {
      PrintedReads(n / 10);
      var s := Printed(n);
      assert s[..|s| - 1] == Printed(n / 10);
    } else {
      assert Printed(n)[..0] == "";
    }
  }

  lemma {:induction false} ZerosRead(k: nat, s: string)
    requires AllDigits(s)
    ensures AllDigits(Zeros(k) + s) && Decimal(Zeros(k) + s) == Decimal(s)
    decreases |s|, k
  {
    var t := Zeros(k) + s;
    if s != "" {
      ZerosRead(k, s[..|s| - 1]);
      assert t[..|t| - 1] == Zeros(k) + s[..|s| - 1];
    } else if k > 0 {
      ZerosRead(k - 1, "");
      assert t[..|t| - 1] == Zeros(k - 1) + "";
    }
  }

  /** One more digit on a numeral. */
  lemma NumeralAnd(s: string, m: nat, d: nat)
    requires NumeralOf(s, m) && d < 10
    ensures NumeralOf(s + [DIGITS[d]], 10 * m + d)
  {
    var k: nat :| s == Zeros(k) + Printed(m);
    if m == 0 {
      assert Zeros(k) + Printed(0) + [DIGITS[d]] == Zeros(k + 1) + Printed(d);
    } else {
      assert (10 * m + d) / 10 == m && (10 * m + d) % 10 == d;
      assert Zeros(k) + Printed(m) + [DIGITS[d]] == Zeros(k) + Printed(10 * m + d);
    }
  }

  /** Every text of digits is some number's numeral, after zeros. */
  lemma {:induction false} ReadIsPrinted(s: string)
    requires s != "" && AllDigits(s)
    ensures NumeralOf(s, Decimal(s))
  {
    hide NumeralOf;
    var n := |s| - 1;
    var d := s[n] as int - '0' as int;
    DigitAt(d);
    assert DIGITS[d] == s[n];
    if n == 0 {
      OneDigit(s, d);
    } else {
      ReadIsPrinted(s[..n]);
      NumeralAnd(s[..n], Decimal(s[..n]), d);
      assert s == s[..n] + [DIGITS[d]];
    }
  }

  lemma OneDigit(s: string, d: nat)
    requires d < 10 && |s| == 1 && s[0] == DIGITS[d]
    ensures AllDigits(s) && Decimal(s) == d && NumeralOf(s, d)
  {
    PrintedReads(d);
    hide Decimal, AllDigits;
    assert Printed(d) == [DIGITS[d]];
    assert s == [DIGITS[d]];
    assert Zeros(0) + s == s;
  }

  /** A text is read as n exactly when it is n's numeral, leading zeros allowed, and n fits. */
  lemma ReadExactly(s: string, n: nat)
    ensures ParseUint(s) == Some(n) <==> n < LIMIT && NumeralOf(s, n)
  {
    if ParseUint(s) == Some(n) {
      ReadIsPrinted(s);
    }
    if NumeralOf(s, n) {
      var k: nat :| s == Zeros(k) + Printed(n);
      PrintedReads(n);
      ZerosRead(k, Printed(n));
    }
  }

  /** Printing and reading are inverse. */
  lemma PrintedParses(n: nat)
    ensures ParseUint(Printed(n)) == if n < LIMIT then Some(n) else None
  {
    PrintedReads(n);
  }

  /** The options that may accompany a constrained update, in full: one version in digits, and
      registryAuthFrom=spec or nothing. */
  ghost predicate SafeOptions(q: Query, version: string) {
    && version != "" && (forall c :: c in version ==> c in DIGITS)
    && (q == map["version" := [version]] || q == map["version" := [version], "registryAuthFrom" := ["spec"]])
  }

  lemma OptionsInFull(q: Query)
    ensures OptionsAllowed(q) <==> exists version :: SafeOptions(q, version)
    ensures forall version :: SafeOptions(q, version) ==> Get(q, VERSION) == version
  {
    if OptionsAllowed(q) {
      var version := q["version"][0];
      assert q["version"] == [version];
      forall c | c in version ensures c in DIGITS {
        DigitsAre(c);
      }
      if "registryAuthFrom" in q {
        assert q == map["version" := [version], "registryAuthFrom" := ["spec"]];
      } else {
        assert q == map["version" := [version]];
      }
      assert SafeOptions(q, version);
    }
    if version :| SafeOptions(q, version) {
      forall i | 0 <= i < |version| ensures IsDigit(version[i]) {
        assert version[i] in version;
        DigitsAre(version[i]);
      }
    }
  }

  /** The version gate: of two constrained updates alike but for the version text, exactly those whose
      text is a numeral of the snapshot's version get past it. */
  lemma VersionGate(p: Permission, op: Operation, body: Mutation.Body, headers: map<string, string>, answer: Answer, version: string)
    requires IsUpdate(op) && SafeOptions(op.Query, version) && CredentialsAllowed(p, headers)
    requires (p.Selector.Some? || p.Mutation.Some?) && answer.Found? && answer.ID == op.ID
    ensures Permit(p, op, body, headers, answer).Reason == VersionMismatch <==>
      !(answer.Version < LIMIT && NumeralOf(version, answer.Version))
  {
    OptionsInFull(op.Query);
    ReadExactly(version, answer.Version);
    hide Labelled, ParseUint, OptionsAllowed, CredentialsAllowed, NumeralOf, SafeOptions;
  }
}
