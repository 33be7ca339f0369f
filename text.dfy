/**
 * String operations of the JavaScript runtime that the extension relies on:
 * `split` and `join`, the path filter `split('/').filter(el => el)`,
 * the relational string comparison `a > b`, and decimal rendering and parsing of numbers.
 * Strings are sequences of characters; no normalisation is modelled.
 */
module Text {

  /** Index of the first occurrence of `c` in `s`. */
  function IndexOf(s: string, c: char): (i: nat)
    requires c in s
    ensures i < |s| && s[i] == c && c !in s[..i]
  {
    if s[0] == c then 0 else 1 + IndexOf(s[1..], c)
  }

  /** `s.split(sep)` for a one-character separator: the pieces between separators, empty ones included. */
  function Split(s: string, sep: char): (parts: seq<string>)
    ensures |parts| >= 1
    ensures forall i :: 0 <= i < |parts| ==> sep !in parts[i]
    decreases |s|
  {
    if sep !in s then [s]
    else
      var i := IndexOf(s, sep);
      [s[..i]] + Split(s[i + 1..], sep)
  }

  /** `parts.join(sep)`. */
  function Join(parts: seq<string>, sep: string): string
  {
    if |parts| == 0 then ""
    else if |parts| == 1 then parts[0]
    else parts[0] + sep + Join(parts[1..], sep)
  }

  /** Joining two non-empty lists is joining each and putting the separator between. */
  lemma {:induction false} JoinConcat(a: seq<string>, b: seq<string>, sep: string)
    requires a != [] && b != []
    ensures Join(a + b, sep) == Join(a, sep) + sep + Join(b, sep)
  {
    if |a| > 1 {
      JoinConcat(a[1..], b, sep);
      assert (a + b)[1..] == a[1..] + b;
    }
  }

  /** Joining what `split` produced gives back the original string. */
  lemma {:induction false} JoinSplit(s: string, sep: char)
    ensures Join(Split(s, sep), [sep]) == s
    decreases |s|
  {
    if sep in s {
      var i := IndexOf(s, sep);
      var rest := s[i + 1..];
      JoinSplit(rest, sep);
      assert Split(s, sep) == [s[..i]] + Split(rest, sep);
      assert s == s[..i] + [sep] + rest;
    }
  }

  /** Splitting a join of separator-free pieces gives back the pieces. */
  lemma {:induction false} SplitJoin(parts: seq<string>, sep: char)
    requires |parts| >= 1
    requires forall i :: 0 <= i < |parts| ==> sep !in parts[i]
    ensures Split(Join(parts, [sep]), sep) == parts
  {
    if |parts| > 1 {
      var s := Join(parts, [sep]);
      var tail := Join(parts[1..], [sep]);
      SplitJoin(parts[1..], sep);
      assert s == parts[0] + [sep] + tail;
      assert sep in s by { assert s[|parts[0]|] == sep; }
      var i := IndexOf(s, sep);
      assert i == |parts[0]| by {
        assert s[..|parts[0]|] == parts[0];
        assert s[|parts[0]|] == sep;
        assert sep !in s[..|parts[0]|];
      }
      assert s[..i] == parts[0];
      assert s[i + 1..] == tail;
    }
  }

  /** The non-empty strings of `xs`, in order: `xs.filter(el => el)`. */
  function NonEmpty(xs: seq<string>): (r: seq<string>)
    ensures |r| <= |xs|
    ensures forall i :: 0 <= i < |r| ==> r[i] != [] && r[i] in xs
  {
    if xs == [] then []
    else if xs[0] == [] then NonEmpty(xs[1..])
    else [xs[0]] + NonEmpty(xs[1..])
  }

  /** The path segments of a source path: `source.split('/').filter(el => el)`. */
  function PathSegments(source: string): (segs: seq<string>)
    ensures forall i :: 0 <= i < |segs| ==> segs[i] != [] && '/' !in segs[i]
  {
    NonEmpty(Split(source, '/'))
  }

  predicate SlashFree(segs: seq<string>)
  {
    forall i :: 0 <= i < |segs| ==> segs[i] != [] && '/' !in segs[i]
  }

  /** An absolute path written from its segments splits back into exactly those segments. */
  lemma PathSegmentsOfAbsolute(segs: seq<string>)
    requires SlashFree(segs)
    ensures PathSegments("/" + Join(segs, "/")) == segs
  {
    if segs == [] {
      assert "/" + Join(segs, "/") == "/";
      assert Split("/", '/') == [[]] + Split([], '/');
    } else {
      var parts := [[]] + segs;
      assert parts[1..] == segs;
      assert Join(parts, "/") == "/" + Join(segs, "/");
      SplitJoin(parts, '/');
      NonEmptyKeepsNonEmpty(segs);
      assert NonEmpty(parts) == NonEmpty(segs);
    }
  }

  lemma {:induction false} NonEmptyKeepsNonEmpty(xs: seq<string>)
    requires forall i :: 0 <= i < |xs| ==> xs[i] != []
    ensures NonEmpty(xs) == xs
  {
    if xs != [] {
      NonEmptyKeepsNonEmpty(xs[1..]);
    }
  }

  /** A path made only of slashes (or empty) has no segments, and only such a path. */
  lemma {:induction false} PathSegmentsEmpty(source: string)
    ensures PathSegments(source) == [] <==> forall i :: 0 <= i < |source| ==> source[i] == '/'
    decreases |source|
  {
    if '/' in source {
      var i := IndexOf(source, '/');
      var rest := source[i + 1..];
      PathSegmentsEmpty(rest);
      assert Split(source, '/') == [source[..i]] + Split(rest, '/');
      if i == 0 {
        assert NonEmpty(Split(source, '/')) == NonEmpty(Split(rest, '/'));
        assert forall j :: 0 <= j < |rest| ==> rest[j] == source[j + 1];
      } else {
        assert NonEmpty(Split(source, '/')) == [source[..i]] + NonEmpty(Split(rest, '/'));
        assert source[0] != '/' by { assert source[..i][0] == source[0]; }
      }
    } else if source != [] {
      assert Split(source, '/') == [source];
      assert source[0] != '/' by { assert source[0] in source; }
    } else {
      assert Split(source, '/') == [[]];
    }
  }

  /** `s.startsWith(prefix)`. */
  predicate StartsWith(s: string, prefix: string)
  {
    |prefix| <= |s| && s[..|prefix|] == prefix
  }

  /**
   * `a <= b` for JavaScript strings: lexicographic by character, a proper prefix first.
   * The relational operator `a > b` of the source is `!StrLe(a, b)`.
   */
  predicate StrLe(a: string, b: string)
  {
    if a == [] then true
    else if b == [] then false
    else if a[0] != b[0] then a[0] < b[0]
    else StrLe(a[1..], b[1..])
  }

  lemma {:induction false} StrLeReflexive(a: string)
    ensures StrLe(a, a)
  {
    if a != [] { StrLeReflexive(a[1..]); }
  }

  lemma {:induction false} StrLeTotal(a: string, b: string)
    ensures StrLe(a, b) || StrLe(b, a)
  {
    if a != [] && b != [] && a[0] == b[0] { StrLeTotal(a[1..], b[1..]); }
  }

  lemma {:induction false} StrLeAntisymmetric(a: string, b: string)
    requires StrLe(a, b) && StrLe(b, a)
    ensures a == b
  {
    if a != [] && b != [] {
      StrLeAntisymmetric(a[1..], b[1..]);
      assert a == [a[0]] + a[1..] && b == [b[0]] + b[1..];
    }
  }

  lemma {:induction false} StrLeTransitive(a: string, b: string, c: string)
    requires StrLe(a, b) && StrLe(b, c)
    ensures StrLe(a, c)
  {
    if a != [] && b != [] && c != [] && a[0] == b[0] && b[0] == c[0] {
      StrLeTransitive(a[1..], b[1..], c[1..]);
    }
  }

  /** The decimal digit for 0 <= d < 10. */
  function Digit(d: nat): (c: char)
    requires d < 10
    ensures '0' <= c <= '9'
  {
    ['0', '1', '2', '3', '4', '5', '6', '7', '8', '9'][d]
  }

  predicate IsDigit(c: char)
  {
    '0' <= c <= '9'
  }

  predicate AllDigits(s: string)
  {
    forall i :: 0 <= i < |s| ==> IsDigit(s[i])
  }

  /** `String(n)` for a natural number: its decimal digits, without leading zeros. */
  function NatToString(n: nat): (s: string)
    ensures |s| >= 1 && AllDigits(s)
    ensures |s| > 1 ==> s[0] != '0'
  {
    if n < 10 then [Digit(n)] else NatToString(n / 10) + [Digit(n % 10)]
  }

  /** `String(i)` for an integer. */
  function IntToString(i: int): string
  {
    if i < 0 then "-" + NatToString(-i) else NatToString(i)
  }

  /** The number a string of decimal digits denotes (`+"007"` is 7, `+""` is 0). */
  function DigitsValue(s: string): nat
    requires AllDigits(s)
  {
    if s == [] then 0
    else DigitsValue(s[..|s| - 1]) * 10 + ((s[|s| - 1] as int) - ('0' as int))
  }

  /** Reading back the decimal rendering of a number gives the number. */
  lemma {:induction false} DigitsValueOfNatToString(n: nat)
    ensures DigitsValue(NatToString(n)) == n
  {
    if n >= 10 {
      DigitsValueOfNatToString(n / 10);
      var s := NatToString(n);
      assert s[..|s| - 1] == NatToString(n / 10);
    }
    var d := n % 10;
    assert (Digit(d) as int) - ('0' as int) == d;
  }

  /** Distinct numbers have distinct decimal renderings. */
  lemma NatToStringInjective(m: nat, n: nat)
    requires NatToString(m) == NatToString(n)
    ensures m == n
  {
    DigitsValueOfNatToString(m);
    DigitsValueOfNatToString(n);
  }
}
