/** Strings as both source languages use them: lexicographic order, trimming of
    white space and splitting into lines. */
module Text {
  import opened Sequences

  /** Lexicographic order by code point, Python's `<=` on `str`. */
  predicate Leq(a: string, b: string) {
    a == "" || (b != "" && (a[0] < b[0] || (a[0] == b[0] && Leq(a[1..], b[1..]))))
  }

  lemma {:induction false} LeqTotal(a: string, b: string)
    ensures Leq(a, b) || Leq(b, a)
  {
    if a != "" && b != "" && a[0] == b[0] {
      LeqTotal(a[1..], b[1..]);
    }
  }

  lemma {:induction false} LeqTransitive(a: string, b: string, c: string)
    requires Leq(a, b) && Leq(b, c)
    ensures Leq(a, c)
  {
    if a != "" && a[0] == b[0] == c[0] {
      LeqTransitive(a[1..], b[1..], c[1..]);
    }
  }

  lemma {:induction false} LeqAntisymmetric(a: string, b: string)
    requires Leq(a, b) && Leq(b, a)
    ensures a == b
  {
    if a != "" {
      LeqAntisymmetric(a[1..], b[1..]);
      assert a == [a[0]] + a[1..] && b == [b[0]] + b[1..];
    }
  }

  /** The texts agree on their first k characters; then a ends, or has the smaller one. */
  predicate SmallerAt(a: string, b: string, k: nat) {
    && k <= |a| && k < |b| && a[..k] == b[..k]
    && (k == |a| || a[k] < b[k])
  }

  /** a comes before b in the dictionary. */
  ghost predicate Precedes(a: string, b: string) {
    exists k: nat :: SmallerAt(a, b, k)
  }

  /** Leq is dictionary order. */
  lemma {:induction false} LeqMeaning(a: string, b: string)
    ensures Leq(a, b) <==> a == b || Precedes(a, b)
  {
    if a == "" {
      assert b != "" ==> SmallerAt(a, b, 0);
    } else if b != "" {
      if a[0] == b[0] {
        LeqMeaning(a[1..], b[1..]);
        assert a == [a[0]] + a[1..] && b == [b[0]] + b[1..];
        if k: nat :| SmallerAt(a[1..], b[1..], k) {
          assert a[..k + 1] == [a[0]] + a[1..][..k] && b[..k + 1] == [b[0]] + b[1..][..k];
          assert SmallerAt(a, b, k + 1);
        }
        if k: nat :| SmallerAt(a, b, k) {
          assert a[..k][1..] == a[1..][..k - 1] && b[..k][1..] == b[1..][..k - 1];
          assert SmallerAt(a[1..], b[1..], k - 1);
        }
      } else if a[0] < b[0] {
        assert SmallerAt(a, b, 0);
      } else {
        forall k: nat ensures !SmallerAt(a, b, k) {
          if k > 0 && k <= |a| && k <= |b| { assert a[..k][0] != b[..k][0]; }
        }
      }
    }
  }

  const LEQ: (string, string) -> bool := (a, b) => Leq(a, b)

  lemma LeqIsOrder()
    ensures TotalPreorder(LEQ)
    ensures forall a, b :: LEQ(a, b) && LEQ(b, a) ==> a == b
  {
    forall a, b ensures LEQ(a, b) || LEQ(b, a) { LeqTotal(a, b); }
    forall a, b, c | LEQ(a, b) && LEQ(b, c) ensures LEQ(a, c) { LeqTransitive(a, b, c); }
    forall a, b | LEQ(a, b) && LEQ(b, a) ensures a == b { LeqAntisymmetric(a, b); }
  }

  /** `sorted(set(names))`. */
  function SortedNames(names: seq<string>): seq<string> {
    StableSort(LEQ, Dedup(names))
  }

  lemma SortedNamesMembers(names: seq<string>)
    ensures Distinct(SortedNames(names))
    ensures forall x :: x in SortedNames(names) <==> x in names
  {
    SortPermutes(LEQ, Dedup(names));
    SortMembers(LEQ, Dedup(names));
    DistinctByMultiset(Dedup(names), SortedNames(names));
  }

  /** The sorted names depend only on which names there are. */
  lemma SortedNamesUnique(names: seq<string>, names': seq<string>)
    requires forall x :: x in names <==> x in names'
    ensures SortedNames(names) == SortedNames(names')
  {
    LeqIsOrder();
    DistinctSameMembers(Dedup(names), Dedup(names'));
    SortIgnoresOrder(LEQ, Dedup(names), Dedup(names'));
  }

  // ----- white space -----

  /** `str.isspace` restricted to single characters, what `str.strip` removes. */
  predicate PySpace(c: char) {
    var n := c as int;
    || 9 <= n <= 13 || 28 <= n <= 32 || n == 0x85 || n == 0xA0 || n == 0x1680
    || 0x2000 <= n <= 0x200A || n == 0x2028 || n == 0x2029 || n == 0x202F
    || n == 0x205F || n == 0x3000
  }

  /** White space and line terminators, what ECMAScript's `trim` removes. */
  predicate JsSpace(c: char) {
    var n := c as int;
    || 9 <= n <= 13 || n == 32 || n == 0xA0 || n == 0x1680
    || 0x2000 <= n <= 0x200A || n == 0x2028 || n == 0x2029 || n == 0x202F
    || n == 0x205F || n == 0x3000 || n == 0xFEFF
  }

  /** Where the two languages differ: Python also takes the four separators below the
      space and the next-line character, ECMAScript the byte order mark. */
  lemma SpacesCompared(c: char)
    ensures PySpace(c) != JsSpace(c) <==> c as int in {28, 29, 30, 31, 0x85, 0xFEFF}
  {}

  function Trim(space: char -> bool, s: string): string {
    if s == "" then ""
    else if space(s[0]) then Trim(space, s[1..])
    else if space(s[|s| - 1]) then Trim(space, s[..|s| - 1])
    else s
  }

  /** A text whose ends are not white space. */
  predicate Trimmed(space: char -> bool, s: string) {
    s != "" ==> !space(s[0]) && !space(s[|s| - 1])
  }

  /** t is s[i..j] and everything of s outside it is white space. */
  ghost predicate BlankOutside(space: char -> bool, s: string, i: nat, j: nat) {
    i <= j <= |s| && (forall k :: 0 <= k < |s| && !(i <= k < j) ==> space(s[k]))
  }

  lemma {:induction false} TrimSlice(space: char -> bool, s: string) returns (i: nat, j: nat)
    ensures BlankOutside(space, s, i, j) && Trim(space, s) == s[i..j]
  {
    if s == "" {
      i, j := 0, 0;
    } else if space(s[0]) {
      i, j := TrimSlice(space, s[1..]);
      assert s == [s[0]] + s[1..];
      assert s[i + 1..j + 1] == s[1..][i..j];
      i, j := i + 1, j + 1;
    } else if space(s[|s| - 1]) {
      var t := s[..|s| - 1];
      i, j := TrimSlice(space, t);
      assert s == t + [s[|s| - 1]];
      assert s[i..j] == t[i..j];
    } else {
      i, j := 0, |s|;
      assert s[i..j] == s;
    }
  }

  lemma {:induction false} TrimEnds(space: char -> bool, s: string)
    ensures Trimmed(space, Trim(space, s))
  {
    if s == "" {
    } else if space(s[0]) {
      TrimEnds(space, s[1..]);
    } else if space(s[|s| - 1]) {
      TrimEnds(space, s[..|s| - 1]);
    }
  }

  /** Trimming removes exactly a blank prefix and a blank suffix. */
  lemma TrimMeaning(space: char -> bool, s: string)
    ensures Trimmed(space, Trim(space, s))
    ensures exists i: nat, j: nat :: BlankOutside(space, s, i, j) && Trim(space, s) == s[i..j]
  {
    var i, j := TrimSlice(space, s);
    TrimEnds(space, s);
  }

  /** Nothing is left exactly of a text that is all white space. */
  lemma TrimBlank(space: char -> bool, s: string)
    ensures Trim(space, s) == "" <==> forall k :: 0 <= k < |s| ==> space(s[k])
  {
    var i, j := TrimSlice(space, s);
    TrimEnds(space, s);
    if Trim(space, s) != "" {
      assert Trim(space, s)[0] == s[i];
    }
  }

  // ----- lines -----

  predicate Without(c: char, s: string) {
    c !in s
  }

  /** `text.split("\n")`. */
  function Lines(s: string): (r: seq<string>)
    ensures r != []
  {
    if s == "" then [""]
    else
      var rest := Lines(s[1..]);
      if s[0] == '\n' then [""] + rest else [[s[0]] + rest[0]] + rest[1..]
  }

  function JoinLines(lines: seq<string>): string {
    if lines == [] then ""
    else if |lines| == 1 then lines[0]
    else lines[0] + "\n" + JoinLines(lines[1..])
  }

  /** Splitting into lines undoes joining them, and the other way round. */
  lemma {:induction false} LinesOfJoined(lines: seq<string>)
    requires lines != [] && forall l :: l in lines ==> Without('\n', l)
    ensures Lines(JoinLines(lines)) == lines
  {
    if |lines| == 1 {
      OneLine(lines[0]);
    } else {
      LinesOfJoined(lines[1..]);
      FirstLine(lines[0], JoinLines(lines[1..]));
    }
  }

  lemma {:induction false} JoinedLines(s: string)
    ensures JoinLines(Lines(s)) == s
  {
    if s != "" {
      var rest := Lines(s[1..]);
      JoinedLines(s[1..]);
      assert s == [s[0]] + s[1..];
      if s[0] == '\n' {
        assert ([""] + rest)[1..] == rest;
      } else {
        assert ([[s[0]] + rest[0]] + rest[1..])[1..] == rest[1..];
      }
    }
  }

  lemma {:induction false} OneLine(a: string)
    requires Without('\n', a)
    ensures Lines(a) == [a]
  {
    if a != "" {
      assert Without('\n', a[1..]);
      OneLine(a[1..]);
      assert a == [a[0]] + a[1..];
    }
  }

  lemma {:induction false} FirstLine(a: string, b: string)
    requires Without('\n', a)
    ensures Lines(a + "\n" + b) == [a] + Lines(b)
  {
    if a == "" {
      assert ("\n" + b)[1..] == b;
      assert a + "\n" + b == "\n" + b;
    } else {
      FirstLine(a[1..], b);
      assert (a + "\n" + b)[1..] == a[1..] + "\n" + b;
      assert a == [a[0]] + a[1..];
      assert ([a[1..]] + Lines(b))[1..] == Lines(b);
    }
  }
}
