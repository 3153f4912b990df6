/** Splitting and joining of strings at a separator, prefixes and suffixes, and ASCII case. */
module Strings {

  function Split(s: string, sep: char): (parts: seq<string>)
    ensures |parts| > 0
  {
    if s == "" then [""]
    else
      var rest := Split(s[1..], sep);
      if s[0] == sep then [""] + rest else [[s[0]] + rest[0]] + rest[1..]
  }

  function Join(parts: seq<string>, sep: char): string {
    if parts == [] then ""
    else if |parts| == 1 then parts[0]
    else parts[0] + [sep] + Join(parts[1..], sep)
  }

  ghost predicate FreeOf(parts: seq<string>, sep: char) {
    forall i :: 0 <= i < |parts| ==> sep !in parts[i]
  }

  lemma {:induction false} SplitAtFirst(a: string, b: string, sep: char)
    requires sep !in a
    ensures Split(a + [sep] + b, sep) == [a] + Split(b, sep)
  {
    var s := a + [sep] + b;
    if a == "" {
      assert s[1..] == b;
    } else {
      assert s[1..] == a[1..] + [sep] + b;
      SplitAtFirst(a[1..], b, sep);
      assert [s[0]] + a[1..] == a;
    }
  }

  lemma {:induction false} SplitWithout(a: string, sep: char)
    requires sep !in a
    ensures Split(a, sep) == [a]
  {
    if a != "" {
      SplitWithout(a[1..], sep);
      assert [a[0]] + a[1..] == a;
    }
  }

  /** Parts without the separator survive joining and splitting. */
  lemma {:induction false} SplitJoin(parts: seq<string>, sep: char)
    requires parts != [] && FreeOf(parts, sep)
    ensures Split(Join(parts, sep), sep) == parts
  {
    if |parts| == 1 {
      SplitWithout(parts[0], sep);
    } else {
      SplitJoin(parts[1..], sep);
      SplitAtFirst(parts[0], Join(parts[1..], sep), sep);
    }
  }

  lemma {:induction false} SplitAtLast(a: string, b: string, sep: char)
    requires sep !in b
    ensures Split(a + [sep] + b, sep) == Split(a, sep) + [b]
  {
    var s := a + [sep] + b;
    if a == "" {
      assert s[1..] == b;
      SplitWithout(b, sep);
    } else {
      assert s[1..] == a[1..] + [sep] + b;
      SplitAtLast(a[1..], b, sep);
    }
  }

  /** Splitting loses nothing. */
  lemma {:induction false} JoinSplit(s: string, sep: char)
    ensures Join(Split(s, sep), sep) == s && FreeOf(Split(s, sep), sep)
  {
    if s != "" {
      JoinSplit(s[1..], sep);
      var rest := Split(s[1..], sep);
      assert s == [s[0]] + s[1..];
      if s[0] == sep {
        assert Split(s, sep)[1..] == rest;
      } else {
        assert Split(s, sep)[1..] == rest[1..];
      }
    }
  }

  lemma {:induction false} JoinSnoc(parts: seq<string>, part: string, sep: char)
    requires parts != []
    ensures Join(parts + [part], sep) == Join(parts, sep) + [sep] + part
  {
    if |parts| == 1 {
      assert (parts + [part])[1..] == [part];
    } else {
      JoinSnoc(parts[1..], part, sep);
      assert (parts + [part])[1..] == parts[1..] + [part];
    }
  }

  predicate HasPrefix<T(==)>(s: seq<T>, prefix: seq<T>) {
    prefix <= s
  }

  predicate HasSuffix<T(==)>(s: seq<T>, suffix: seq<T>) {
    |suffix| <= |s| && s[|s| - |suffix|..] == suffix
  }

  function TrimSuffix<T(==)>(s: seq<T>, suffix: seq<T>): seq<T> {
    if HasSuffix(s, suffix) then s[..|s| - |suffix|] else s
  }

  // ------------------------------------------------------------------------ letters

  const LOWER := "abcdefghijklmnopqrstuvwxyz"
  const UPPER := "ABCDEFGHIJKLMNOPQRSTUVWXYZ"
  const DIGITS := "0123456789"

  predicate Digit(c: char) { '0' <= c <= '9' }
  predicate LowerLetter(c: char) { 'a' <= c <= 'z' }
  predicate UpperLetter(c: char) { 'A' <= c <= 'Z' }

  lemma LowerLetters(c: char)
    ensures LowerLetter(c) <==> c in LOWER
  {
    if LowerLetter(c) {
      assert LOWER[c as int - 'a' as int] == c;
    }
  }

  lemma UpperLetters(c: char)
    ensures UpperLetter(c) <==> c in UPPER
  {
    if UpperLetter(c) {
      assert UPPER[c as int - 'A' as int] == c;
    }
  }

  lemma Digits(c: char)
    ensures Digit(c) <==> c in DIGITS
  {
    if Digit(c) {
      assert DIGITS[c as int - '0' as int] == c;
    }
  }

  function LowerChar(c: char): char {
    if UpperLetter(c) then (c as int + 32) as char else c
  }

  /** strings.ToLower on ASCII. */
  function Lower(s: string): string {
    seq(|s|, i requires 0 <= i < |s| => LowerChar(s[i]))
  }

  lemma Alphabet(k: nat)
    requires k < 26
    ensures UPPER[k] as int == 'A' as int + k && LOWER[k] as int == 'a' as int + k
  {
  }

  /** a is the lower-case letter of b. */
  ghost predicate LowerOf(a: char, b: char) {
    exists k :: 0 <= k < 26 && a == LOWER[k] && b == UPPER[k]
  }

  /** Two characters that differ at most in case. */
  ghost predicate SameLetter(a: char, b: char) {
    a == b || LowerOf(a, b) || LowerOf(b, a)
  }

  lemma LowerOfMeans(a: char, b: char)
    ensures LowerOf(a, b) <==> UpperLetter(b) && a == LowerChar(b)
  {
    if UpperLetter(b) && a == LowerChar(b) {
      var k := b as int - 'A' as int;
      Alphabet(k);
      assert a == LOWER[k] && b == UPPER[k];
    } else if k :| 0 <= k < 26 && a == LOWER[k] && b == UPPER[k] {
      Alphabet(k);
    }
  }

  lemma LowerCharsMeet(a: char, b: char)
    ensures LowerChar(a) == LowerChar(b) <==> SameLetter(a, b)
  {
    LowerOfMeans(a, b);
    LowerOfMeans(b, a);
  }

  /** What it means to compare without regard to case. */
  lemma LowerMeans(a: string, b: string)
    ensures Lower(a) == Lower(b) <==> |a| == |b| && forall i :: 0 <= i < |a| ==> SameLetter(a[i], b[i])
  {
    if |a| == |b| {
      forall i | 0 <= i < |a| ensures Lower(a)[i] == Lower(b)[i] <==> SameLetter(a[i], b[i]) {
        LowerCharsMeet(a[i], b[i]);
      }
      if Lower(a) == Lower(b) {
        forall i | 0 <= i < |a| ensures SameLetter(a[i], b[i]) {
          assert Lower(a)[i] == Lower(b)[i];
        }
      }
    } else {
      assert |Lower(a)| == |a| && |Lower(b)| == |b|;
    }
  }
}
