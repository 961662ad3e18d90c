/** Splitting, joining and decimal numerals, with their round trips. */
module Text {

  // ---------------------------------------------------------------------------
  // Split and join
  // ---------------------------------------------------------------------------

  /** The pieces between occurrences of `sep`; there is always at least one. */
  function Split<T(==)>(s: seq<T>, sep: T): (parts: seq<seq<T>>)
    ensures |parts| >= 1
  {
    if s == [] then [[]]
    else
      var rest := Split(s[1..], sep);
      if s[0] == sep then [[]] + rest else [[s[0]] + rest[0]] + rest[1..]
  }

  function Join<T>(parts: seq<seq<T>>, sep: T): seq<T>
    requires |parts| >= 1
  {
    if |parts| == 1 then parts[0] else parts[0] + [sep] + Join(parts[1..], sep)
  }

  lemma {:induction false} JoinSplit<T>(s: seq<T>, sep: T)
    ensures Join(Split(s, sep), sep) == s
  {
    if s != [] {
      JoinSplit(s[1..], sep);
      var rest := Split(s[1..], sep);
      var parts := Split(s, sep);
      if s[0] == sep {
        assert parts[1..] == rest;
      } else {
        assert parts[1..] == rest[1..];
      }
    }
  }

  lemma {:induction false} SplitPartsLackSep<T>(s: seq<T>, sep: T)
    ensures forall i :: 0 <= i < |Split(s, sep)| ==> sep !in Split(s, sep)[i]
  {
    if s != [] {
      SplitPartsLackSep(s[1..], sep);
    }
  }

  lemma {:induction false} SplitFirst<T>(part: seq<T>, sep: T, s: seq<T>)
    requires sep !in part
    ensures Split(part + [sep] + s, sep) == [part] + Split(s, sep)
  {
    var all := part + [sep] + s;
    if part == [] {
      assert all[1..] == s;
    } else {
      assert all[1..] == part[1..] + [sep] + s;
      SplitFirst(part[1..], sep, s);
      assert all[0] == part[0] != sep && [part[0]] + part[1..] == part;
    }
  }

  lemma {:induction false} SplitWhole<T>(part: seq<T>, sep: T)
    requires sep !in part
    ensures Split(part, sep) == [part]
  {
    if part != [] {
      SplitWhole(part[1..], sep);
      assert part[0] != sep && [part[0]] + part[1..] == part;
    }
  }

  lemma {:induction false} SplitJoin<T>(parts: seq<seq<T>>, sep: T)
    requires |parts| >= 1 && forall i :: 0 <= i < |parts| ==> sep !in parts[i]
    ensures Split(Join(parts, sep), sep) == parts
  {
    if |parts| == 1 {
      SplitWhole(parts[0], sep);
    } else {
      SplitJoin(parts[1..], sep);
      SplitFirst(parts[0], sep, Join(parts[1..], sep));
    }
  }

  // ---------------------------------------------------------------------------
  // Bytes and decimal numerals
  // ---------------------------------------------------------------------------

  type Byte = b: int | 0 <= b < 256

  const ZERO: Byte := 48

  predicate IsDigit(b: Byte) {
    ZERO <= b < ZERO + 10
  }

  predicate AllDigits(s: seq<Byte>) {
    forall i :: 0 <= i < |s| ==> IsDigit(s[i])
  }

  /** Digits only, at least one, and no leading zero. */
  predicate Canonical(s: seq<Byte>) {
    s != [] && AllDigits(s) && (|s| > 1 ==> s[0] != ZERO)
  }

  function Value(s: seq<Byte>): nat
    requires AllDigits(s)
  {
    if s == [] then 0 else 10 * Value(s[..|s| - 1]) + (s[|s| - 1] - ZERO)
  }

  function Digits(n: nat): seq<Byte> {
    if n < 10 then [ZERO + n] else Digits(n / 10) + [ZERO + n % 10]
  }

  lemma {:induction false} DigitsRoundTrip(n: nat)
    ensures Canonical(Digits(n)) && Value(Digits(n)) == n
    ensures n > 0 ==> Digits(n)[0] != ZERO
    ensures n < 1000 ==> |Digits(n)| <= 3
    ensures n < 100000 ==> |Digits(n)| <= 5
  {
    if n >= 10 {
      DigitsRoundTrip(n / 10);
      assert Digits(n)[..|Digits(n)| - 1] == Digits(n / 10);
      if n < 1000 {
        DigitsShort(n / 10, 2);
      }
      if n < 100000 {
        DigitsShort(n / 10, 4);
      }
    }
  }

  /** Numbers below 10^k have at most `k` digits, for the sizes used here. */
  lemma {:induction false} DigitsShort(n: nat, k: nat)
    requires (k == 1 && n < 10) || (k == 2 && n < 100) || (k == 3 && n < 1000) || (k == 4 && n < 10000)
    ensures |Digits(n)| <= k
    decreases k
  {
    if n >= 10 {
      DigitsShort(n / 10, k - 1);
    }
  }

  lemma {:induction false} ValuePositive(s: seq<Byte>)
    requires AllDigits(s) && s != [] && s[0] != ZERO
    ensures Value(s) > 0
  {
    if |s| > 1 {
      ValuePositive(s[..|s| - 1]);
    }
  }

  lemma {:induction false} ValueRoundTrip(s: seq<Byte>)
    requires Canonical(s)
    ensures Digits(Value(s)) == s
  {
    var front, last := s[..|s| - 1], s[|s| - 1];
    assert s == front + [last];
    if |s| > 1 {
      ValuePositive(front);
      ValueRoundTrip(front);
      assert Value(s) / 10 == Value(front) && Value(s) % 10 == last - ZERO;
    }
  }
}
