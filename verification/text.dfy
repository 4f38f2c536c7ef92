/** String operations of the peak tables: Python's `sep.join`, `str.split`, the
    `filter(None, ...)` idiom, and the code-point order that sorts group keys. */
module Text {
  import opened Wrappers

  /** `sep.join(parts)` */
  function Join(sep: string, parts: seq<string>): string {
    if |parts| == 0 then ""
    else if |parts| == 1 then parts[0]
    else parts[0] + sep + Join(sep, parts[1..])
  }

  /** `s.split(sep)` for a one-character separator; never empty, as in Python. */
  function Split(sep: char, s: string): (parts: seq<string>)
    ensures |parts| > 0
  {
    if s == [] then [""]
    else
      var rest := Split(sep, s[1..]);
      if s[0] == sep then [""] + rest else [[s[0]] + rest[0]] + rest[1..]
  }

  /** Splitting text that starts with a separator-free chunk `a` glues `a` onto the first piece. */
  lemma {:induction false} SplitPrefix(sep: char, a: string, rest: string)
    requires sep !in a
    ensures Split(sep, a + rest) == [a + Split(sep, rest)[0]] + Split(sep, rest)[1..]
  {
    if a == [] {
      var r := Split(sep, rest);
      assert a + rest == rest;
      assert a + r[0] == r[0];
      assert r == [r[0]] + r[1..];
    } else {
      assert (a + rest)[1..] == a[1..] + rest;
      SplitPrefix(sep, a[1..], rest);
      assert [a[0]] + (a[1..] + Split(sep, rest)[0]) == a + Split(sep, rest)[0];
    }
  }

  /** Splitting undoes joining whenever no part contains the separator. */
  lemma {:induction false} SplitJoin(sep: char, parts: seq<string>)
    requires |parts| > 0
    requires forall i | 0 <= i < |parts| :: sep !in parts[i]
    ensures Split(sep, Join([sep], parts)) == parts
  {
    if |parts| == 1 {
      SplitPrefix(sep, parts[0], "");
      assert parts[0] + "" == parts[0];
    } else {
      var tail := Join([sep], parts[1..]);
      SplitJoin(sep, parts[1..]);
      assert Join([sep], parts) == parts[0] + ([sep] + tail);
      SplitPrefix(sep, parts[0], [sep] + tail);
      assert ([sep] + tail)[1..] == tail;
      assert Split(sep, [sep] + tail) == [""] + parts[1..];
      assert parts[0] + "" == parts[0];
    }
  }

  /** `filter(None, values)`: drops missing values and empty strings. */
  function Present(values: seq<Option<string>>): (r: seq<string>)
    ensures forall i | 0 <= i < |r| :: r[i] != ""
    ensures forall s :: s in r <==> s != "" && Some(s) in values
  {
    if values == [] then []
    else
      (if values[0].Some? && values[0].value != "" then [values[0].value] else [])
      + Present(values[1..])
  }

  /** `sep.join(filter(None, values))` */
  function JoinPresent(sep: string, values: seq<Option<string>>): string {
    Join(sep, Present(values))
  }

  lemma {:induction false} JoinNonEmpty(sep: string, parts: seq<string>)
    requires |parts| > 0 && parts[0] != ""
    ensures Join(sep, parts) != ""
  {
    if |parts| > 1 {
      assert Join(sep, parts)[0] == parts[0][0];
    }
  }

  lemma PresentAppend(a: seq<Option<string>>, b: seq<Option<string>>)
    ensures Present(a + b) == Present(a) + Present(b)
  {
    if a == [] {
      assert a + b == b;
    } else {
      assert (a + b)[1..] == a[1..] + b;
      PresentAppend(a[1..], b);
    }
  }

  /** Joining a value with an already joined list (both filtered) is joining the flat list:
      `';'.join(filter(None, [c, ';'.join(filter(None, xs))]))`. */
  lemma {:induction false} JoinPresentFlatten(c: string, xs: seq<Option<string>>)
    ensures JoinPresent(";", [Some(c), Some(JoinPresent(";", xs))]) == JoinPresent(";", [Some(c)] + xs)
  {
    var inner := JoinPresent(";", xs);
    var head := if c != "" then [c] else [];
    assert Present([Some(c)] + xs) == head + Present(xs) by {
      assert ([Some(c)] + xs)[1..] == xs;
    }
    assert Present([Some(c), Some(inner)]) == head + (if inner != "" then [inner] else []) by {
      var two := [Some(c), Some(inner)];
      assert two[1..] == [Some(inner)];
      assert [Some(inner)][1..] == [];
      assert Present([Some(inner)]) == (if inner != "" then [inner] else []) + Present([]);
      assert Present(two) == head + Present(two[1..]);
    }
    if Present(xs) != [] {
      JoinNonEmpty(";", Present(xs));
    } else {
      assert inner == "";
    }
    if c != "" && inner != "" {
      assert (head + Present(xs))[1..] == Present(xs);
      assert Join(";", [c, inner]) == c + ";" + inner by {
        assert [c, inner][1..] == [inner];
      }
    } else if c != "" {
      assert head + Present(xs) == [c];
    } else {
      assert head + Present(xs) == Present(xs);
    }
  }

  /** Python's string `<`: code-point lexicographic order, a proper prefix first. */
  predicate LexLess(a: string, b: string) {
    if a == [] then b != []
    else if b == [] then false
    else if a[0] != b[0] then a[0] < b[0]
    else LexLess(a[1..], b[1..])
  }

  lemma {:induction false} LexIrreflexive(a: string)
    ensures !LexLess(a, a)
  {
    if a != [] {
      LexIrreflexive(a[1..]);
    }
  }

  lemma {:induction false} LexTransitive(a: string, b: string, c: string)
    requires LexLess(a, b) && LexLess(b, c)
    ensures LexLess(a, c)
  {
    if a != [] && b != [] && c != [] && a[0] == b[0] && b[0] == c[0] {
      LexTransitive(a[1..], b[1..], c[1..]);
    }
  }

  lemma {:induction false} LexTotal(a: string, b: string)
    requires a != b
    ensures LexLess(a, b) || LexLess(b, a)
  {
    if a != [] && b != [] && a[0] == b[0] {
      assert a == [a[0]] + a[1..] && b == [b[0]] + b[1..];
      LexTotal(a[1..], b[1..]);
    }
  }

  lemma {:induction false} LexAsymmetric(a: string, b: string)
    requires LexLess(a, b)
    ensures !LexLess(b, a)
  {
    if !(a == [] || b == [] || a[0] != b[0]) {
      LexAsymmetric(a[1..], b[1..]);
    }
  }

  predicate StrictlySorted(s: seq<string>) {
    forall i, j | 0 <= i < j < |s| :: LexLess(s[i], s[j])
  }

  function InsertSorted(x: string, s: seq<string>): (r: seq<string>)
    requires StrictlySorted(s)
    ensures StrictlySorted(r)
    ensures forall y :: y in r <==> y == x || y in s
  {
    if s == [] then [x]
    else if x == s[0] then s
    else if LexLess(x, s[0]) then
      assert forall j | 0 < j < |s| :: LexLess(x, s[j]) by {
        forall j | 0 < j < |s| ensures LexLess(x, s[j]) {
          LexTransitive(x, s[0], s[j]);
        }
      }
      [x] + s
    else
      LexTotal(x, s[0]);
      var r := [s[0]] + InsertSorted(x, s[1..]);
      assert forall y | y in r[1..] :: LexLess(s[0], y);
      r
  }

  /** The distinct values of `xs` in ascending order: the key order of a pandas `groupby`. */
  function SortedDistinct(xs: seq<string>): (r: seq<string>)
    ensures StrictlySorted(r)
    ensures forall y :: y in r <==> y in xs
  {
    if xs == [] then [] else InsertSorted(xs[0], SortedDistinct(xs[1..]))
  }

  /** In a strictly sorted sequence the last entry is above every other one. */
  lemma LastIsGreatest(s: seq<string>, y: string)
    requires StrictlySorted(s) && s != [] && y in s && y != s[|s| - 1]
    ensures LexLess(y, s[|s| - 1])
  {
  }

  lemma SortedLastIsGreatest(s: seq<string>)
    requires StrictlySorted(s) && s != []
    ensures forall y | y in s && y != s[|s| - 1] :: LexLess(y, s[|s| - 1])
  {
    forall y | y in s && y != s[|s| - 1] ensures LexLess(y, s[|s| - 1]) {
      LastIsGreatest(s, y);
    }
  }

  /** Strictly sorted entries are distinct, so a value occupies one position. */
  lemma SortedPositionUnique(s: seq<string>, i: nat, j: nat)
    requires StrictlySorted(s) && i < |s| && j < |s|
    ensures s[i] == s[j] <==> i == j
  {
    if i < j {
      LexIrreflexive(s[i]);
    } else if j < i {
      LexIrreflexive(s[j]);
    }
  }
}
