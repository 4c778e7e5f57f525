/** Strings as the Go runtime treats them: ordering, sorting, decimal rendering, splitting and joining.
    A character stands for a byte, or for a code point where a string came out of JSON; UTF-8 keeps
    the order of the two the same. */
module Text {

  // ---------- ordering ----------

  /** The byte-wise order `sort.Strings` uses. */
  predicate Leq(a: string, b: string)
  {
    if a == [] then true
    else if b == [] then false
    else a[0] < b[0] || (a[0] == b[0] && Leq(a[1..], b[1..]))
  }

  lemma {:induction false} LeqTotal(a: string, b: string)
    ensures Leq(a, b) || Leq(b, a)
  {
    if a != [] && b != [] && a[0] == b[0] { LeqTotal(a[1..], b[1..]); }
  }

  lemma {:induction false} LeqAntisymmetric(a: string, b: string)
    requires Leq(a, b) && Leq(b, a)
    ensures a == b
  {
    if a != [] && b != [] {
      LeqAntisymmetric(a[1..], b[1..]);
      assert a == [a[0]] + a[1..] && b == [b[0]] + b[1..];
    }
  }

  lemma {:induction false} LeqTransitive(a: string, b: string, c: string)
    requires Leq(a, b) && Leq(b, c)
    ensures Leq(a, c)
  {
    if a != [] && b != [] && c != [] && a[0] == b[0] == c[0] {
      LeqTransitive(a[1..], b[1..], c[1..]);
    }
  }

  predicate Sorted(s: seq<string>)
  {
    forall i, j :: 0 <= i < j < |s| ==> Leq(s[i], s[j])
  }

  // ---------- sorting ----------

  function Insert(x: string, s: seq<string>): seq<string>
  {
    if s == [] then [x]
    else if Leq(x, s[0]) then [x] + s
    else [s[0]] + Insert(x, s[1..])
  }

  lemma {:induction false} InsertFacts(x: string, s: seq<string>)
    requires Sorted(s)
    ensures Sorted(Insert(x, s))
    ensures multiset(Insert(x, s)) == multiset(s) + multiset{x}
  {
    if s != [] {
      assert s == [s[0]] + s[1..];
      if Leq(x, s[0]) {
        forall j | 0 <= j < |s| ensures Leq(x, s[j]) {
          if j > 0 { LeqTransitive(x, s[0], s[j]); }
        }
      } else {
        var t := Insert(x, s[1..]);
        InsertFacts(x, s[1..]);
        LeqTotal(x, s[0]);
        forall j | 0 <= j < |t| ensures Leq(s[0], t[j]) {
          assert t[j] in multiset(t);
          assert t[j] == x || t[j] in s[1..];
        }
      }
    }
  }

  /** `sort.Strings` on a copy. */
  function Sort(s: seq<string>): seq<string>
  {
    if s == [] then [] else Insert(s[0], Sort(s[1..]))
  }

  /** Sorting yields the ordered rearrangement of its argument. */
  lemma {:induction false} SortFacts(s: seq<string>)
    ensures Sorted(Sort(s))
    ensures multiset(Sort(s)) == multiset(s)
    ensures forall y :: y in Sort(s) <==> y in s
  {
    if s != [] {
      SortFacts(s[1..]);
      assert s == [s[0]] + s[1..];
      InsertFacts(s[0], Sort(s[1..]));
    }
    assert forall y :: y in Sort(s) <==> y in multiset(Sort(s));
    assert forall y :: y in s <==> y in multiset(s);
  }

  lemma FirstIsLeast(a: seq<string>, y: string)
    requires Sorted(a) && y in a
    ensures Leq(a[0], y)
  {
    var i :| 0 <= i < |a| && a[i] == y;
    LeqTotal(y, y);
  }

  /** A sorted sequence is determined by its multiset. */
  lemma {:induction false} SortedUnique(a: seq<string>, b: seq<string>)
    requires Sorted(a) && Sorted(b) && multiset(a) == multiset(b)
    ensures a == b
  {
    assert |a| == |multiset(a)| == |multiset(b)| == |b|;
    if a != [] {
      SameFirst(a, b);
      TailMultiset(a);
      TailMultiset(b);
      SortedUnique(a[1..], b[1..]);
      assert a == [a[0]] + a[1..] && b == [b[0]] + b[1..];
    }
  }

  lemma SameFirst(a: seq<string>, b: seq<string>)
    requires Sorted(a) && Sorted(b) && multiset(a) == multiset(b) && a != [] && b != []
    ensures a[0] == b[0]
  {
    assert a[0] in multiset(b) && b[0] in multiset(a);
    FirstIsLeast(a, b[0]);
    FirstIsLeast(b, a[0]);
    LeqAntisymmetric(a[0], b[0]);
  }

  lemma TailMultiset(a: seq<string>)
    requires a != []
    ensures multiset(a[1..]) == multiset(a) - multiset{a[0]}
  {
    assert a == [a[0]] + a[1..];
  }

  predicate Distinct(s: seq<string>)
  {
    forall i, j :: 0 <= i < j < |s| ==> s[i] != s[j]
  }

  lemma {:induction false} DistinctCounts(s: seq<string>, y: string)
    requires Distinct(s)
    ensures multiset(s)[y] == if y in s then 1 else 0
  {
    if s != [] {
      assert s == [s[0]] + s[1..];
      DistinctCounts(s[1..], y);
      if s[0] == y {
        assert y !in s[1..];
      }
    }
  }

  lemma DistinctFromCounts(s: seq<string>)
    requires forall y :: multiset(s)[y] <= 1
    ensures Distinct(s)
  {
    forall i, j | 0 <= i < j < |s| ensures s[i] != s[j] {
      assert s == s[..j] + [s[j]] + s[j + 1..];
      assert multiset(s) == multiset(s[..j]) + multiset([s[j]]) + multiset(s[j + 1..]);
      assert s[..j][i] == s[i];
      assert s[i] in s[..j];
      assert multiset(s)[s[j]] >= multiset(s[..j])[s[j]] + 1;
      assert s[j] !in multiset(s[..j]);
      assert s[j] !in s[..j];
    }
  }

  /** Distinct sequences over the same elements have the same multiset. */
  lemma SameElementsSameMultiset(a: seq<string>, b: seq<string>)
    requires Distinct(a) && Distinct(b)
    requires forall y :: y in a <==> y in b
    ensures multiset(a) == multiset(b)
  {
    forall y ensures multiset(a)[y] == multiset(b)[y] {
      DistinctCounts(a, y);
      DistinctCounts(b, y);
    }
  }

  // ---------- the elements of a set in order ----------

  predicate IsLeast(k: string, keys: set<string>) { k in keys && forall x :: x in keys ==> Leq(k, x) }

  lemma {:induction false} LeastExists(keys: set<string>) returns (k: string)
    requires keys != {}
    ensures IsLeast(k, keys)
    decreases |keys|
  {
    var x :| x in keys;
    var rest := keys - {x};
    if rest == {} {
      k := x;
      LeqTotal(x, x);
      assert keys == {x};
    } else {
      var y := LeastExists(rest);
      k := if Leq(x, y) then x else y;
      LeqTotal(x, y);
      LeqTotal(x, x);
      LeqTotal(y, y);
      forall z | z in keys ensures Leq(k, z) {
        if z != x {
          assert z in rest;
          LeqTransitive(k, y, z);
        }
      }
    }
  }

  function Least(keys: set<string>): (k: string)
    requires keys != {}
    ensures IsLeast(k, keys)
  {
    assert exists k :: IsLeast(k, keys) by { var k := LeastExists(keys); }
    assert forall a, b :: IsLeast(a, keys) && IsLeast(b, keys) ==> a == b by {
      forall a, b | IsLeast(a, keys) && IsLeast(b, keys) ensures a == b {
        LeqAntisymmetric(a, b);
      }
    }
    var k :| IsLeast(k, keys);
    k
  }

  /** The elements of a set in ascending order. */
  function InOrder(keys: set<string>): (s: seq<string>)
    ensures forall x :: x in s <==> x in keys
    decreases |keys|
  {
    if keys == {} then [] else [Least(keys)] + InOrder(keys - {Least(keys)})
  }

  // ---------- splitting and joining ----------

  /** `strings.Split(s, sep)` for a one-byte separator: never empty. */
  function Split(s: string, sep: char): (r: seq<string>)
    ensures |r| >= 1
    ensures forall i :: 0 <= i < |r| ==> sep !in r[i]
  {
    if s == [] then [[]]
    else if s[0] == sep then [[]] + Split(s[1..], sep)
    else
      var t := Split(s[1..], sep);
      [[s[0]] + t[0]] + t[1..]
  }

  function Join(parts: seq<string>, sep: char): string
  {
    if parts == [] then []
    else if |parts| == 1 then parts[0]
    else parts[0] + [sep] + Join(parts[1..], sep)
  }

  lemma {:induction false} SplitFirst(first: string, rest: string, sep: char)
    requires sep !in first
    ensures Split(first + [sep] + rest, sep) == [first] + Split(rest, sep)
  {
    var s := first + [sep] + rest;
    if first == [] {
      assert s[1..] == rest;
    } else {
      assert s[1..] == first[1..] + [sep] + rest;
      SplitFirst(first[1..], rest, sep);
      assert [first[0]] + first[1..] == first;
    }
  }

  /** Cut a text at its first separator. */
  lemma {:induction false} SplitOnce(s: string, sep: char) returns (first: string, rest: string)
    requires sep in s
    ensures s == first + [sep] + rest && sep !in first && Split(s, sep) == [first] + Split(rest, sep)
  {
    if s[0] == sep {
      first, rest := "", s[1..];
    } else {
      var head: string;
      head, rest := SplitOnce(s[1..], sep);
      first := [s[0]] + head;
    }
    assert s == first + [sep] + rest;
    SplitFirst(first, rest, sep);
  }

  lemma {:induction false} SplitPlain(s: string, sep: char)
    requires sep !in s
    ensures Split(s, sep) == [s]
  {
    if s != [] {
      SplitPlain(s[1..], sep);
      assert [s[0]] + s[1..] == s;
    }
  }

  lemma {:induction false} SplitJoin(parts: seq<string>, sep: char)
    requires parts != []
    requires forall i :: 0 <= i < |parts| ==> sep !in parts[i]
    ensures Split(Join(parts, sep), sep) == parts
  {
    if |parts| == 1 {
      SplitPlain(parts[0], sep);
    } else {
      SplitJoin(parts[1..], sep);
      SplitFirst(parts[0], Join(parts[1..], sep), sep);
    }
  }

  lemma {:induction false} JoinSplit(s: string, sep: char)
    ensures Join(Split(s, sep), sep) == s
  {
    if s != [] {
      var t := Split(s[1..], sep);
      JoinSplit(s[1..], sep);
      if s[0] == sep {
        assert ([[]] + t)[1..] == t;
      } else {
        var u := [[s[0]] + t[0]] + t[1..];
        assert u[1..] == t[1..];
        assert s == [s[0]] + s[1..];
      }
    }
  }

  // ---------- trimming ----------

  predicate Blank(c: char) { c in " \t\n\r\U{0B}\U{0C}" }

  /** `strings.TrimSpace` on ASCII text. */
  function TrimSpace(s: string): string
    decreases |s|
  {
    if s == "" then ""
    else if Blank(s[0]) then TrimSpace(s[1..])
    else if Blank(s[|s| - 1]) then TrimSpace(s[..|s| - 1])
    else s
  }

  // ---------- decimal numbers ----------

  function Digit(d: int): (c: char)
    requires 0 <= d < 10
  {
    '0' + d as char
  }

  /** Decimal digits of a natural number, as `strconv` writes them. */
  function Digits(n: nat): (s: string)
    ensures s != []
  {
    if n < 10 then [Digit(n)] else Digits(n / 10) + [Digit(n % 10)]
  }

  function Itoa(n: int): string
  {
    if n < 0 then ['-'] + Digits(-n) else Digits(n)
  }

  function DigitsValue(s: string): int
  {
    if s == [] then 0 else 10 * DigitsValue(s[..|s| - 1]) + (s[|s| - 1] as int - '0' as int)
  }

  lemma {:induction false} DigitsRead(n: nat)
    ensures DigitsValue(Digits(n)) == n
    ensures forall i :: 0 <= i < |Digits(n)| ==> '0' <= Digits(n)[i] <= '9'
    ensures Digits(n)[0] == '0' ==> n == 0 && |Digits(n)| == 1
  {
    if n < 10 {
      assert DigitsValue([Digit(n)][..0]) == 0;
    } else {
      DigitsRead(n / 10);
      var s := Digits(n / 10) + [Digit(n % 10)];
      assert s[..|s| - 1] == Digits(n / 10);
    }
  }

  lemma {:induction false} DigitsLength(n: nat, k: nat, bound: nat)
    requires k >= 1 && bound == Power10(k) && n < bound
    ensures |Digits(n)| <= k
    decreases k
  {
    if n >= 10 {
      DigitsLength(n / 10, k - 1, bound / 10);
    }
  }

  function Power10(k: nat): (r: nat)
    ensures r >= 1
  {
    if k == 0 then 1 else 10 * Power10(k - 1)
  }

  lemma ItoaInjective(m: int, n: int)
    ensures Itoa(m) == Itoa(n) ==> m == n
  {
    DigitsRead(if m < 0 then -m else m);
    DigitsRead(if n < 0 then -n else n);
    assert m < 0 ==> Itoa(m)[0] == '-' && Itoa(m)[1..] == Digits(-m);
    assert n < 0 ==> Itoa(n)[0] == '-' && Itoa(n)[1..] == Digits(-n);
    assert m >= 0 ==> Itoa(m)[0] != '-';
    assert n >= 0 ==> Itoa(n)[0] != '-';
  }
}
