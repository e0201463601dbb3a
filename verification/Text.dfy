/** Strings: their code-unit order and joining with a separator. */
module Text {
  import opened Sorting

  // Negative, zero or positive as `a` sorts before, with or after `b`.
  function CompareText(a: string, b: string): int {
    if a == "" then (if b == "" then 0 else -1)
    else if b == "" then 1
    else if a[0] != b[0] then (if a[0] < b[0] then -1 else 1)
    else CompareText(a[1..], b[1..])
  }

  lemma {:induction false} CompareFlips(a: string, b: string)
    ensures CompareText(a, b) == -CompareText(b, a)
    ensures CompareText(a, b) == 0 <==> a == b
  {
    if a != "" && b != "" {
      CompareFlips(a[1..], b[1..]);
      assert a == [a[0]] + a[1..] && b == [b[0]] + b[1..];
    }
  }

  /** Strings sort by their first different character, and a beginning before what it begins. */
  lemma {:induction false} ComparesAtDifference(a: string, b: string, i: nat)
    requires i <= |a| && i <= |b| && a[..i] == b[..i]
    ensures i == |a| < |b| ==> CompareText(a, b) < 0
    ensures i < |a| && i < |b| && a[i] < b[i] ==> CompareText(a, b) < 0
  {
    if i > 0 {
      assert a[0] == a[..i][0] == b[..i][0] == b[0];
      assert a[1..][..i - 1] == a[..i][1..] && b[1..][..i - 1] == b[..i][1..];
      ComparesAtDifference(a[1..], b[1..], i - 1);
    }
  }

  lemma {:induction false} CompareTransitive(a: string, b: string, c: string)
    requires CompareText(a, b) <= 0 && CompareText(b, c) <= 0
    ensures CompareText(a, c) <= 0
  {
    if a != "" && b != "" && c != "" && a[0] == b[0] == c[0] {
      CompareTransitive(a[1..], b[1..], c[1..]);
    }
  }

  lemma TextIsStrict(m: multiset<string>)
    ensures StrictOn(CompareText, m)
  {
    forall a, b | a in m && b in m ensures CompareText(a, b) < 0 <==> CompareText(b, a) > 0 {
      CompareFlips(a, b);
    }
    forall a, b | a in m && b in m && a != b ensures CompareText(a, b) != 0 {
      CompareFlips(a, b);
    }
    forall a, b, c | a in m && b in m && c in m && CompareText(a, b) <= 0 && CompareText(b, c) <= 0
      ensures CompareText(a, c) <= 0
    {
      CompareTransitive(a, b, c);
    }
  }

  function SortText(q: seq<string>): seq<string> {
    Sort(CompareText, q)
  }

  /** Sorted lists of strings are equal exactly when the lists hold the same strings equally often. */
  lemma SortTextExact(a: seq<string>, b: seq<string>)
    ensures SortText(a) == SortText(b) <==> multiset(a) == multiset(b)
  {
    SortMembers(CompareText, a);
    SortMembers(CompareText, b);
    if multiset(a) == multiset(b) {
      TextIsStrict(multiset(a));
      SortOrdered(CompareText, a);
      SortOrdered(CompareText, b);
      OrderedUnique(CompareText, SortText(a), SortText(b));
    }
  }

  // The characters that /\s/ matches.
  predicate Whitespace(c: char) {
    var n := c as int;
    9 <= n <= 13 || n == 32 || n == 0xA0 || n == 0x1680 || 0x2000 <= n <= 0x200A
    || n == 0x2028 || n == 0x2029 || n == 0x202F || n == 0x205F || n == 0x3000 || n == 0xFEFF
  }

  const BLANKS := "\t\n\U{000B}\U{000C}\r \U{00A0}\U{1680}\U{2000}\U{2001}\U{2002}\U{2003}\U{2004}\U{2005}\U{2006}"
                  + "\U{2007}\U{2008}\U{2009}\U{200A}\U{2028}\U{2029}\U{202F}\U{205F}\U{3000}\U{FEFF}"

  lemma BlanksAreWhitespace(c: char)
    ensures c in BLANKS <==> Whitespace(c)
  {
  }

  function TrimEnd(s: string): string {
    if s != "" && Whitespace(s[|s| - 1]) then TrimEnd(s[..|s| - 1]) else s
  }

  function Join(q: seq<string>, sep: char): string {
    if q == [] then "" else if |q| == 1 then q[0] else q[0] + [sep] + Join(q[1..], sep)
  }

  predicate Free(q: seq<string>, sep: char) {
    forall s | s in q :: sep !in s
  }

  lemma SplitAt(a: string, b: string, x: string, y: string, sep: char)
    requires sep !in a && sep !in b && a + [sep] + x == b + [sep] + y
    ensures a == b && x == y
  {
    var s := a + [sep] + x;
    assert s[|a|] == sep && s[|b|] == sep;
    assert forall i :: 0 <= i < |a| ==> s[i] == a[i];
    assert forall i :: 0 <= i < |b| ==> s[i] == b[i];
    assert |a| == |b|;
    assert a == s[..|a|] && b == s[..|b|] && x == s[|a| + 1..] && y == s[|b| + 1..];
  }

  lemma JoinHasSeparator(q: seq<string>, sep: char)
    requires |q| > 1
    ensures sep in Join(q, sep)
  {
    assert Join(q, sep)[|q[0]|] == sep;
  }

  /** Joined text determines the parts, as long as no part contains the separator. */
  lemma {:induction false} JoinInjective(p: seq<string>, q: seq<string>, sep: char)
    requires p != [] && q != [] && Free(p, sep) && Free(q, sep) && Join(p, sep) == Join(q, sep)
    ensures p == q
  {
    assert p[0] in p && q[0] in q;
    if |p| == 1 {
      if |q| > 1 {
        JoinHasSeparator(q, sep);
      }
    } else if |q| == 1 {
      JoinHasSeparator(p, sep);
    } else {
      SplitAt(p[0], q[0], Join(p[1..], sep), Join(q[1..], sep), sep);
      JoinInjective(p[1..], q[1..], sep);
      assert p == [p[0]] + p[1..] && q == [q[0]] + q[1..];
    }
  }

  lemma {:induction false} JoinFree(q: seq<string>, sep: char, c: char)
    requires c != sep && Free(q, c)
    ensures c !in Join(q, sep)
  {
    if q != [] {
      assert q[0] in q;
      JoinFree(q[1..], sep, c);
    }
  }
}
