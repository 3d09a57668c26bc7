/** String helpers shared by the models: ASCII lower-casing, splitting and
    joining on one separator, and decimal numerals. */
module Text {

  function LowerChar(c: char): char {
    if 'A' <= c <= 'Z' then c - 'A' + 'a' else c
  }

  function Lower(s: string): (r: string)
    ensures |r| == |s|
  {
    seq(|s|, i requires 0 <= i < |s| => LowerChar(s[i]))
  }

  /** A capital and the small letter of it, 32 places further on. */
  predicate TwoForms(c: char, d: char) {
    'A' <= c <= 'Z' && d as int == c as int + 32
  }

  /** A capital becomes its small letter, and nothing else changes: no other two characters become one. */
  lemma LowerCharIs(c: char, d: char)
    ensures TwoForms(c, d) ==> LowerChar(c) == d && 'a' <= d <= 'z'
    ensures !('A' <= c <= 'Z') ==> LowerChar(c) == c
    ensures LowerChar(c) == LowerChar(d) <==> c == d || TwoForms(c, d) || TwoForms(d, c)
  {
  }

  /** Lower-casing makes exactly those strings equal that differ in the case of letters only. */
  lemma LowerMeets(a: string, b: string)
    ensures Lower(a) == Lower(b) <==>
      |a| == |b| && forall i :: 0 <= i < |a| ==> a[i] == b[i] || TwoForms(a[i], b[i]) || TwoForms(b[i], a[i])
  {
    if |a| == |b| {
      forall i | 0 <= i < |a|
        ensures LowerChar(a[i]) == LowerChar(b[i]) <==> a[i] == b[i] || TwoForms(a[i], b[i]) || TwoForms(b[i], a[i])
      {
        LowerCharIs(a[i], b[i]);
      }
      assert forall i :: 0 <= i < |a| ==> Lower(a)[i] == LowerChar(a[i]) && Lower(b)[i] == LowerChar(b[i]);
    }
  }

  lemma LowerConcat(a: string, b: string)
    ensures Lower(a + b) == Lower(a) + Lower(b)
  {
  }

  /** Lower-casing neither makes nor removes a non-letter. */
  lemma LowerKeepsSeparators(s: string, sep: char)
    requires !('A' <= sep <= 'Z') && !('a' <= sep <= 'z')
    ensures sep in Lower(s) <==> sep in s
  {
    if sep in s {
      var i :| 0 <= i < |s| && s[i] == sep;
      assert Lower(s)[i] == sep;
    }
    if sep in Lower(s) {
      var i :| 0 <= i < |s| && Lower(s)[i] == sep;
      assert s[i] == sep;
    }
  }

  /** The pieces of s between separators; always at least one. */
  function Split(s: string, sep: char): (r: seq<string>)
    ensures |r| >= 1
  {
    if s == [] then [""]
    else
      var rest := Split(s[1..], sep);
      if s[0] == sep then [""] + rest else [[s[0]] + rest[0]] + rest[1..]
  }

  function Join(parts: seq<string>, sep: char): string
    requires |parts| >= 1
  {
    if |parts| == 1 then parts[0] else parts[0] + [sep] + Join(parts[1..], sep)
  }

  lemma {:induction false} JoinAppend(parts: seq<string>, x: string, sep: char)
    requires |parts| >= 1
    ensures Join(parts + [x], sep) == Join(parts, sep) + [sep] + x
  {
    if |parts| == 1 {
      assert (parts + [x])[1..] == [x];
    } else {
      JoinAppend(parts[1..], x, sep);
      assert (parts + [x])[1..] == parts[1..] + [x];
    }
  }

  lemma {:induction false} SplitPrefix(a: string, b: string, sep: char)
    requires sep !in a
    ensures Split(a + b, sep) == [a + Split(b, sep)[0]] + Split(b, sep)[1..]
  {
    if a == [] {
      assert a + b == b;
      assert a + Split(b, sep)[0] == Split(b, sep)[0];
    } else {
      SplitPrefix(a[1..], b, sep);
      assert (a + b)[1..] == a[1..] + b;
      var first := Split(b, sep)[0];
      assert [a[0]] + (a[1..] + first) == a + first;
      assert Split(a + b, sep) == [[a[0]] + (a[1..] + first)] + Split(b, sep)[1..];
    }
  }

  /** Splitting undoes joining when no part holds the separator. */
  lemma {:induction false} SplitJoin(parts: seq<string>, sep: char)
    requires |parts| >= 1
    requires forall p :: p in parts ==> sep !in p
    ensures Split(Join(parts, sep), sep) == parts
  {
    if |parts| == 1 {
      SplitPrefix(parts[0], "", sep);
      assert parts[0] + "" == parts[0];
    } else {
      SplitJoin(parts[1..], sep);
      var rest := [sep] + Join(parts[1..], sep);
      assert rest[1..] == Join(parts[1..], sep);
      SplitPrefix(parts[0], rest, sep);
      assert parts[0] + rest == Join(parts, sep);
      assert parts[0] + "" == parts[0];
    }
  }

  lemma ShorterPrefixDiffers(a: string, b: string, c: string, d: string, sep: char)
    requires sep !in c && |a| < |c|
    ensures a + [sep] + b != c + [sep] + d
  {
    assert (a + [sep] + b)[|a|] == sep;
    assert (c + [sep] + d)[|a|] == c[|a|];
  }

  /** Strings joined by a separator that the first parts lack are equal only piece by piece. */
  lemma SeparatorInjective(a: string, b: string, c: string, d: string, sep: char)
    requires sep !in a && sep !in c
    requires a + [sep] + b == c + [sep] + d
    ensures a == c && b == d
  {
    if |a| < |c| {
      ShorterPrefixDiffers(a, b, c, d, sep);
    } else if |c| < |a| {
      ShorterPrefixDiffers(c, d, a, b, sep);
    } else {
      assert (a + [sep] + b)[..|a|] == a && (c + [sep] + d)[..|c|] == c;
      assert (a + [sep] + b)[|a| + 1..] == b && (c + [sep] + d)[|c| + 1..] == d;
    }
  }

  /** The decimal numeral of n. */
  function Decimal(n: nat): (r: string)
    ensures |r| >= 1
    ensures forall c :: c in r ==> '0' <= c <= '9'
  {
    if n < 10 then ['0' + n as char] else Decimal(n / 10) + ['0' + (n % 10) as char]
  }

  predicate Digits(s: string) { forall i :: 0 <= i < |s| ==> '0' <= s[i] <= '9' }

  /** The number a string of digits stands for. */
  function Value(s: string): nat
    requires Digits(s)
  {
    if s == [] then 0 else 10 * Value(s[..|s| - 1]) + (s[|s| - 1] - '0') as nat
  }

  /** A numeral stands for its number, and does not start with a zero. */
  lemma {:induction false} DecimalValue(n: nat)
    ensures Digits(Decimal(n)) && Value(Decimal(n)) == n && (n > 0 ==> Decimal(n)[0] != '0')
  {
    if n >= 10 {
      DecimalValue(n / 10);
      var d := ['0' + (n % 10) as char];
      assert Decimal(n) == Decimal(n / 10) + d;
      assert Decimal(n)[..|Decimal(n)| - 1] == Decimal(n / 10);
    } else {
      assert Decimal(n)[..0] == [];
    }
  }

  lemma DecimalInjective(m: nat, n: nat)
    ensures Decimal(m) == Decimal(n) <==> m == n
  {
    DecimalValue(m);
    DecimalValue(n);
  }

  /** More digits make a number other than zero bigger. */
  lemma {:induction false} MoreDigits(d: string, e: string)
    requires Digits(d) && Digits(e) && Value(d) > 0
    ensures Digits(d + e) && Value(d + e) >= Value(d) && (Value(d + e) == Value(d) <==> e == [])
  {
    if e == [] {
      assert d + e == d;
    } else {
      MoreDigits(d, e[..|e| - 1]);
      assert (d + e)[..|d + e| - 1] == d + e[..|e| - 1];
    }
  }
}
