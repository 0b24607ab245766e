/** String operations the modelled code gets from its standard library. */
module Text {
  /** The capitals A to Z become small letters, and every other character stays. */
  function LowerChar(c: char): (l: char)
    ensures l as int == if 'A' <= c <= 'Z' then c as int + 32 else c as int
  {
    if 'A' <= c <= 'Z' then c - 'A' + 'a' else c
  }

  /** ASCII lower-casing, which is all that MAC addresses need. */
  function ToLower(s: string): (r: string)
    ensures |r| == |s|
    ensures forall i :: 0 <= i < |s| ==> r[i] == LowerChar(s[i])
  {
    if s == [] then [] else [LowerChar(s[0])] + ToLower(s[1..])
  }

  /** The lexicographic order of the source language's string comparison. */
  predicate Less(a: string, b: string) {
    if b == [] then false
    else if a == [] then true
    else a[0] < b[0] || (a[0] == b[0] && Less(a[1..], b[1..]))
  }

  /** One string comes before another exactly if it ends, or has the smaller character, where they first differ. */
  lemma {:induction false} LessAtFirstDifference(a: string, b: string)
    ensures Less(a, b) <==>
            exists k :: 0 <= k <= |a| && k <= |b| && a[..k] == b[..k]
                        && (if k < |a| && k < |b| then a[k] < b[k] else |a| < |b|)
  {
    if a == [] || b == [] {
      assert a[..0] == b[..0];
    } else {
      LessAtFirstDifference(a[1..], b[1..]);
      if Less(a, b) && a[0] == b[0] {
        var k :| 0 <= k <= |a[1..]| && k <= |b[1..]| && a[1..][..k] == b[1..][..k]
                 && (if k < |a[1..]| && k < |b[1..]| then a[1..][k] < b[1..][k] else |a[1..]| < |b[1..]|);
        assert a[..k + 1] == [a[0]] + a[1..][..k] && b[..k + 1] == [b[0]] + b[1..][..k];
      } else if Less(a, b) {
        assert a[..0] == b[..0];
      }
      if k :| 0 < k <= |a| && k <= |b| && a[..k] == b[..k] && (if k < |a| && k < |b| then a[k] < b[k] else |a| < |b|) {
        assert a[0] == a[..k][0] == b[..k][0] == b[0];
        assert a[1..][..k - 1] == a[..k][1..] && b[1..][..k - 1] == b[..k][1..];
      }
    }
  }

  predicate SameLetter(c: char, d: char) {
    || c == d
    || ('A' <= c <= 'Z' && c as int + 32 == d as int)
    || ('A' <= d <= 'Z' && d as int + 32 == c as int)
  }

  /** Up to k the strings have the same letters, and there a ends or has the smaller letter. */
  predicate FirstDifference(a: string, b: string, k: int) {
    && 0 <= k <= |a| && k <= |b|
    && (forall i :: 0 <= i < k ==> SameLetter(a[i], b[i]))
    && if k < |a| && k < |b|
       then (if 'A' <= a[k] <= 'Z' then a[k] as int + 32 else a[k] as int)
            < (if 'A' <= b[k] <= 'Z' then b[k] as int + 32 else b[k] as int)
       else |a| < |b|
  }

  lemma LoweredLetter(c: char, d: char)
    ensures LowerChar(c) == LowerChar(d) <==> SameLetter(c, d)
  {
  }

  lemma LoweredPrefix(a: string, b: string, k: nat)
    requires k <= |a| && k <= |b|
    ensures ToLower(a)[..k] == ToLower(b)[..k] <==> forall i :: 0 <= i < k ==> SameLetter(a[i], b[i])
  {
    var x, y := ToLower(a)[..k], ToLower(b)[..k];
    forall i | 0 <= i < k ensures x[i] == y[i] <==> SameLetter(a[i], b[i]) {
      LoweredLetter(a[i], b[i]);
    }
  }

  /** The same of strings read with the capitals A to Z as small letters. */
  lemma LessOfLowered(a: string, b: string)
    ensures Less(ToLower(a), ToLower(b)) <==> exists k :: FirstDifference(a, b, k)
  {
    var x, y := ToLower(a), ToLower(b);
    LessAtFirstDifference(x, y);
    forall k | 0 <= k <= |a| && k <= |b|
      ensures FirstDifference(a, b, k) <==> x[..k] == y[..k] && (if k < |x| && k < |y| then x[k] < y[k] else |x| < |y|)
    {
      LoweredPrefix(a, b, k);
    }
  }

  lemma {:induction false} LessIsIrreflexive(a: string)
    ensures !Less(a, a)
  {
    if a != [] {
      LessIsIrreflexive(a[1..]);
    }
  }

  lemma {:induction false} LessIsTransitive(a: string, b: string, c: string)
    ensures Less(a, b) && Less(b, c) ==> Less(a, c)
  {
    if a != [] && b != [] && c != [] && a[0] == b[0] && b[0] == c[0] {
      LessIsTransitive(a[1..], b[1..], c[1..]);
    }
  }

  lemma {:induction false} LessIsTotal(a: string, b: string)
    ensures a == b || Less(a, b) || Less(b, a)
  {
    if a != [] && b != [] && a[0] == b[0] {
      LessIsTotal(a[1..], b[1..]);
      if a[1..] == b[1..] {
        assert a == [a[0]] + a[1..] && b == [b[0]] + b[1..];
      }
    }
  }

  /** A natural number in decimal, as the format verb %d prints it. */
  function Decimal(n: nat): string {
    if n < 10 then ["0123456789"[n]] else Decimal(n / 10) + ["0123456789"[n % 10]]
  }

  /** The number a string of digits stands for. */
  function NumberOf(s: string): int {
    if s == [] then 0 else 10 * NumberOf(s[..|s| - 1]) + (s[|s| - 1] as int - '0' as int)
  }

  /** Digits only, without a leading zero, that read back as the number. */
  lemma {:induction false} DecimalReadsBack(n: nat)
    ensures var s := Decimal(n);
            && NumberOf(s) == n && s != []
            && (forall i :: 0 <= i < |s| ==> '0' <= s[i] <= '9')
            && (n > 0 ==> s[0] != '0')
  {
    if n >= 10 {
      DecimalReadsBack(n / 10);
      var s := Decimal(n);
      assert s[..|s| - 1] == Decimal(n / 10);
    }
  }

  lemma {:induction false} DecimalIsInjective(m: nat, n: nat)
    requires Decimal(m) == Decimal(n)
    ensures m == n
  {
    var a, b := Decimal(m), Decimal(n);
    assert a[|a| - 1] == "0123456789"[m % 10] && b[|b| - 1] == "0123456789"[n % 10];
    if m >= 10 && n >= 10 {
      assert a[..|a| - 1] == Decimal(m / 10) && b[..|b| - 1] == Decimal(n / 10);
      DecimalIsInjective(m / 10, n / 10);
    } else if m >= 10 {
      DecimalIsNotEmpty(m / 10);
    } else if n >= 10 {
      DecimalIsNotEmpty(n / 10);
    }
  }

  lemma DecimalIsNotEmpty(n: nat)
    ensures Decimal(n) != []
  {
  }

  lemma {:induction false} DecimalHasNoUnderscore(n: nat)
    ensures forall i :: 0 <= i < |Decimal(n)| ==> Decimal(n)[i] != '_'
  {
    if n >= 10 { DecimalHasNoUnderscore(n / 10); }
  }
}
