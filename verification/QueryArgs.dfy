/** Rewriting of '?' placeholders into numbered PostgreSQL placeholders. */
module QueryArgs {
  import opened Text

  /** Character by character: each '?' becomes the next numbered placeholder. */
  function Numbered(query: string, next: nat): string {
    if query == [] then ""
    else if query[0] == '?' then "$" + Decimal(next) + Numbered(query[1..], next + 1)
    else [query[0]] + Numbered(query[1..], next)
  }

  function Marks(query: string): nat {
    if query == [] then 0 else (if query[0] == '?' then 1 else 0) + Marks(query[1..])
  }

  /** Reads a numbered query back, taking "$next", then "$next+1", and so on, as '?'. */
  function Recover(s: string, next: nat): string
    decreases |s|
  {
    var p := "$" + Decimal(next);
    if s == [] then ""
    else if p <= s then "?" + Recover(s[|p|..], next + 1)
    else [s[0]] + Recover(s[1..], next)
  }

  lemma {:induction false} NumberedPlain(a: string, b: string, next: nat)
    requires '?' !in a
    ensures Numbered(a + b, next) == a + Numbered(b, next)
  {
    if a == [] {
      assert a + b == b;
    } else {
      NumberedPlain(a[1..], b, next);
      assert (a + b)[1..] == a[1..] + b;
    }
  }

  lemma {:induction false} SplitParts(s: string, sep: char)
    ensures forall p :: p in Split(s, sep) ==> sep !in p
    ensures Join(Split(s, sep), sep) == s
  {
    if s != [] {
      SplitParts(s[1..], sep);
      var rest := Split(s[1..], sep);
      var all := Split(s, sep);
      if s[0] == sep {
        assert all[1..] == rest;
      } else {
        assert all[1..] == rest[1..];
        assert forall p :: p in all ==> p == all[0] || p in rest;
      }
    }
  }

  /** Text keeps its place and order, and the placeholders after a prefix go on
      from the number of '?' in that prefix. */
  lemma {:induction false} NumberedConcat(a: string, b: string, next: nat)
    ensures Numbered(a + b, next) == Numbered(a, next) + Numbered(b, next + Marks(a))
  {
    if a == [] {
      assert a + b == b;
    } else {
      assert (a + b)[1..] == a[1..] + b;
      NumberedConcat(a[1..], b, if a[0] == '?' then next + 1 else next);
    }
  }

  /** The '?' that follows `before` becomes the placeholder numbered one more
      than the '?' in `before`; everything around it is numbered on its own. */
  lemma IthMark(before: string, after: string)
    ensures Numbered(before + ['?'] + after, 1)
         == Numbered(before, 1) + ("$" + Decimal(Marks(before) + 1) + Numbered(after, Marks(before) + 2))
  {
    assert before + ['?'] + after == before + (['?'] + after);
    NumberedConcat(before, ['?'] + after, 1);
    assert (['?'] + after)[1..] == after;
  }

  lemma {:induction false} MarksOfJoin(parts: seq<string>)
    requires |parts| >= 1
    requires forall p :: p in parts ==> '?' !in p
    ensures Marks(Join(parts, '?')) == |parts| - 1
  {
    MarksPlain(parts[0], "");
    assert parts[0] + "" == parts[0];
    if |parts| > 1 {
      MarksOfJoin(parts[1..]);
      var rest := "?" + Join(parts[1..], '?');
      MarksPlain(parts[0], rest);
      assert rest[1..] == Join(parts[1..], '?');
      assert parts[0] + rest == Join(parts, '?');
    }
  }

  lemma {:induction false} MarksPlain(a: string, b: string)
    requires '?' !in a
    ensures Marks(a + b) == Marks(b)
  {
    if a == [] {
      assert a + b == b;
    } else {
      MarksPlain(a[1..], b);
      assert (a + b)[1..] == a[1..] + b;
    }
  }

  /** One more part appends one more placeholder, numbered by the parts before it. */
  lemma NumberedJoinAppend(parts: seq<string>, x: string)
    requires |parts| >= 1
    requires forall p :: p in parts ==> '?' !in p
    requires '?' !in x
    ensures Numbered(Join(parts + [x], '?'), 1)
         == Numbered(Join(parts, '?'), 1) + ("$" + Decimal(|parts|) + x)
  {
    var before := Join(parts, '?');
    assert Join(parts + [x], '?') == before + ['?'] + x by { JoinAppend(parts, x, '?'); }
    assert Marks(before) + 1 == |parts| by { MarksOfJoin(parts); }
    assert Numbered(x, |parts| + 1) == x by {
      NumberedPlain(x, "", |parts| + 1);
      assert x + "" == x;
    }
    IthMark(before, x);
  }

  method ToPGQueryArgs(query: string) returns (newQuery: string)
    ensures newQuery == Numbered(query, 1)
  {
    var qSplit := Split(query, '?');
    newQuery := qSplit[0];
    SplitParts(query, '?');
    NumberedPlain(qSplit[0], "", 1);
    assert qSplit[0] + "" == qSplit[0];
    for i := 1 to |qSplit|
      invariant newQuery == Numbered(Join(qSplit[..i], '?'), 1)
    {
      NumberedJoinAppend(qSplit[..i], qSplit[i]);
      assert qSplit[..i] + [qSplit[i]] == qSplit[..i + 1];
      newQuery := newQuery + ("$" + Decimal(i) + qSplit[i]);
    }
    assert qSplit[..|qSplit|] == qSplit;
    assert Join(qSplit, '?') == query;
  }

  /** Digits start a numbered query exactly if they start the query itself. */
  lemma {:induction false} DigitsStay(d: string, query: string, next: nat)
    requires forall c :: c in d ==> '0' <= c <= '9'
    ensures d <= Numbered(query, next) <==> d <= query
  {
    assert d != [] ==> d[0] in d && forall c :: c in d[1..] ==> c in d;
    if d != [] && query != [] && query[0] != '?' {
      DigitsStay(d[1..], query[1..], next);
      StartsWith(d, query);
      StartsWith(d, Numbered(query, next));
      assert Numbered(query, next)[1..] == Numbered(query[1..], next);
    }
  }

  lemma StartsWith(d: string, s: string)
    requires d != [] && s != []
    ensures d <= s <==> d[0] == s[0] && d[1..] <= s[1..]
  {
    if d[0] == s[0] && d[1..] <= s[1..] {
      assert forall i :: 0 < i < |d| ==> d[i] == d[1..][i - 1] && s[i] == s[1..][i - 1];
    }
  }

  /** The placeholder that is due after the first i characters. */
  function Due(query: string, i: nat, next: nat): string
    requires i <= |query|
  {
    "$" + Decimal(next + Marks(query[..i]))
  }

  /** The query does not spell out, anywhere, the very placeholder that is due there. */
  ghost predicate NoLookalike(query: string, next: nat) {
    forall i :: 0 <= i < |query| && query[i] != '?' ==> !(Due(query, i, next) <= query[i..])
  }

  lemma NoLookalikeStep(query: string, next: nat)
    requires query != []
    ensures NoLookalike(query, next) <==>
      (query[0] == '?' || !("$" + Decimal(next) <= query))
      && NoLookalike(query[1..], if query[0] == '?' then next + 1 else next)
  {
    var rest, then' := query[1..], if query[0] == '?' then next + 1 else next;
    forall i | 0 <= i < |rest| ensures Due(query, i + 1, next) == Due(rest, i, then') && query[i + 1..] == rest[i..] {
      assert query[..i + 1][1..] == rest[..i];
    }
    assert Due(query, 0, next) == "$" + Decimal(next) && query[0..] == query;
    if NoLookalike(query, next) {
      forall i | 0 <= i < |rest| && rest[i] != '?' ensures !(Due(rest, i, then') <= rest[i..]) {
        assert query[i + 1] == rest[i];
        assert !(Due(query, i + 1, next) <= query[i + 1..]);
      }
    } else if query[0] == '?' || !("$" + Decimal(next) <= query) {
      var i :| 0 <= i < |query| && query[i] != '?' && Due(query, i, next) <= query[i..];
      assert i > 0 && rest[i - 1] == query[i];
      assert Due(rest, i - 1, then') <= rest[i - 1..];
    }
  }

  /** Reading a numbered query back recovers the query exactly if it has no lookalike. */
  lemma {:induction false} RecoverMeans(query: string, next: nat)
    ensures Recover(Numbered(query, next), next) == query <==> NoLookalike(query, next)
  {
    if query != [] {
      var s := Numbered(query, next);
      var p := "$" + Decimal(next);
      var rest, then' := query[1..], if query[0] == '?' then next + 1 else next;
      RecoverMeans(rest, then');
      NoLookalikeStep(query, next);
      if query[0] == '?' {
        assert p <= s && s[|p|..] == Numbered(rest, then');
        TailEqual('?', Recover(Numbered(rest, then'), then'), query);
      } else {
        assert s[1..] == Numbered(rest, next);
        LookalikeStays(query, next);
        TailEqual(query[0], Recover(Numbered(rest, next), next), query);
      }
    }
  }

  lemma TailEqual(c: char, tail: string, query: string)
    requires query != [] && query[0] == c
    ensures [c] + tail == query <==> tail == query[1..]
  {
    if [c] + tail == query {
      assert tail == ([c] + tail)[1..];
    }
  }

  /** The placeholder due now starts the numbered query exactly if it starts the query. */
  lemma LookalikeStays(query: string, next: nat)
    requires query != [] && query[0] != '?'
    ensures "$" + Decimal(next) <= Numbered(query, next) <==> "$" + Decimal(next) <= query
  {
    var p := "$" + Decimal(next);
    DigitsStay(Decimal(next), query[1..], next);
    StartsWith(p, query);
    StartsWith(p, Numbered(query, next));
    assert p[1..] == Decimal(next) && Numbered(query, next)[1..] == Numbered(query[1..], next);
  }

  /** Without '$' a query has no lookalike: it is always recovered, also where a digit follows a '?'. */
  lemma RecoverNumbered(query: string, next: nat)
    requires '$' !in query
    ensures NoLookalike(query, next) && Recover(Numbered(query, next), next) == query
  {
    forall i | 0 <= i < |query| && query[i] != '?' ensures !(Due(query, i, next) <= query[i..]) {
      assert query[i] in query && Due(query, i, next)[0] == '$' && query[i..][0] == query[i];
    }
    RecoverMeans(query, next);
  }

  /** The shortest query that is lost: it spells out the placeholder due first. */
  lemma LiteralPlaceholderIsLost()
    ensures Recover(Numbered("$1", 1), 1) != "$1"
  {
    assert Decimal(1) == "1";
    assert Due("$1", 0, 1) == "$1" && "$1"[0..] == "$1";
    RecoverMeans("$1", 1);
  }

  // ---- What the placeholders read ----

  /** The digits the string starts with. */
  function Leading(s: string): (r: string)
    ensures Digits(r)
  {
    if s == [] || !('0' <= s[0] <= '9') then [] else [s[0]] + Leading(s[1..])
  }

  /** The numbers after the '$' of a query, each read as far as its digits go. */
  function Placeholders(s: string): seq<nat> {
    if s == [] then []
    else if s[0] == '$' then [Value(Leading(s[1..]))] + Placeholders(s[1..])
    else Placeholders(s[1..])
  }

  /** A '?' with a digit right behind it. */
  predicate DigitAfterMark(query: string) {
    exists i :: 0 <= i < |query| - 1 && query[i] == '?' && '0' <= query[i + 1] <= '9'
  }

  lemma {:induction false} LeadingConcat(d: string, rest: string)
    requires Digits(d)
    ensures Leading(d + rest) == d + Leading(rest)
    ensures Placeholders(d + rest) == Placeholders(rest)
  {
    if d == [] {
      assert d + rest == rest;
    } else {
      LeadingConcat(d[1..], rest);
      assert (d + rest)[1..] == d[1..] + rest;
    }
  }

  lemma DigitAfterMarkStep(query: string)
    requires query != []
    ensures DigitAfterMark(query) <==>
      (query[0] == '?' && Leading(query[1..]) != []) || DigitAfterMark(query[1..])
  {
    var rest := query[1..];
    if DigitAfterMark(query) {
      var i :| 0 <= i < |query| - 1 && query[i] == '?' && '0' <= query[i + 1] <= '9';
      assert i > 0 ==> rest[i - 1] == '?' && rest[i] == query[i + 1];
    }
    if i :| 0 <= i < |rest| - 1 && rest[i] == '?' && '0' <= rest[i + 1] <= '9' {
      assert query[i + 1] == '?' && query[i + 2] == rest[i + 1];
    }
    if query[0] == '?' && Leading(rest) != [] {
      assert query[1] == rest[0];
    }
  }

  lemma LeadingNumbered(query: string, next: nat)
    ensures Leading(Numbered(query, next)) == [] <==> Leading(query) == []
  {
  }

  /** The numbers are next, next + 1, and so on. */
  predicate CountFrom(ps: seq<nat>, next: nat) { ps == [] || (ps[0] == next && CountFrom(ps[1..], next + 1)) }

  lemma {:induction false} CountFromMeans(ps: seq<nat>, next: nat)
    ensures CountFrom(ps, next) <==> forall i :: 0 <= i < |ps| ==> ps[i] == next + i
  {
    if ps != [] {
      CountFromMeans(ps[1..], next + 1);
      if CountFrom(ps, next) {
        assert forall i :: 0 < i < |ps| ==> ps[i] == ps[1..][i - 1];
      } else if ps[0] == next {
        var i :| 0 <= i < |ps| - 1 && ps[1..][i] != next + 1 + i;
        assert ps[i + 1] != next + (i + 1);
      }
    }
  }

  lemma CountCons(x: nat, ps: seq<nat>, next: nat)
    ensures CountFrom([x] + ps, next) <==> x == next && CountFrom(ps, next + 1)
  {
    assert ([x] + ps)[1..] == ps;
  }

  /** One placeholder, and what follows it. */
  lemma OneRead(d: string, rest: string)
    requires Digits(d) && Value(d) > 0
    ensures |Placeholders("$" + (d + rest))| == |Placeholders(rest)| + 1
    ensures CountFrom(Placeholders("$" + (d + rest)), Value(d)) <==>
      Leading(rest) == [] && CountFrom(Placeholders(rest), Value(d) + 1)
  {
    assert ("$" + (d + rest))[1..] == d + rest;
    LeadingConcat(d, rest);
    MoreDigits(d, Leading(rest));
    CountCons(Value(d + Leading(rest)), Placeholders(rest), Value(d));
  }

  lemma ReadMark(query: string, next: nat)
    requires query != [] && query[0] == '?' && next > 0
    ensures var rest, after := Placeholders(Numbered(query[1..], next + 1)), Placeholders(Numbered(query, next));
      |after| == |rest| + 1 && (CountFrom(after, next) <==> Leading(query[1..]) == [] && CountFrom(rest, next + 1))
  {
    LeadingNumbered(query[1..], next + 1);
    DecimalValue(next);
    OneRead(Decimal(next), Numbered(query[1..], next + 1));
    assert Numbered(query, next) == "$" + (Decimal(next) + Numbered(query[1..], next + 1));
  }

  lemma ReadPlain(query: string, next: nat)
    requires query != [] && query[0] != '?' && query[0] != '$'
    ensures Placeholders(Numbered(query, next)) == Placeholders(Numbered(query[1..], next))
  {
    assert Numbered(query, next)[1..] == Numbered(query[1..], next);
  }

  lemma {:induction false} CountsRead(query: string, next: nat)
    requires '$' !in query && next > 0
    ensures |Placeholders(Numbered(query, next))| == Marks(query)
    ensures CountFrom(Placeholders(Numbered(query, next)), next) <==> !DigitAfterMark(query)
  {
    if query != [] {
      var rest := query[1..];
      DigitAfterMarkStep(query);
      if query[0] == '?' {
        CountsRead(rest, next + 1);
        ReadMark(query, next);
      } else {
        CountsRead(rest, next);
        ReadPlain(query, next);
      }
    }
  }

  /** Whoever reads a numbered query finds one placeholder for each '?', and they read 1, 2, 3 and so on
      exactly if no digit comes right after a '?'. */
  lemma PlaceholdersRead(query: string)
    requires '$' !in query
    ensures var ps := Placeholders(Numbered(query, 1));
      |ps| == Marks(query) && ((forall i :: 0 <= i < |ps| ==> ps[i] == i + 1) <==> !DigitAfterMark(query))
  {
    CountsRead(query, 1);
    CountFromMeans(Placeholders(Numbered(query, 1)), 1);
  }
}
