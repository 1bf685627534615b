/** The Python string operations the pipeline relies on: `str.split(sep)`,
    `str.strip()`, `str.strip(chars)` and `sep.join(parts)`. */
module Text {

  /** Python's `str.isspace()` for a single character: the characters `str.strip()` removes. */
  predicate IsSpace(c: char) {
    || c == ' '
    || ('\t' <= c <= '\r')
    || ('\U{1c}' <= c <= '\U{1f}')
    || c == '\U{85}' || c == '\U{a0}' || c == '\U{1680}'
    || ('\U{2000}' <= c <= '\U{200a}')
    || c == '\U{2028}' || c == '\U{2029}' || c == '\U{202f}' || c == '\U{205f}' || c == '\U{3000}'
  }

  /** `sep.join(parts)`. */
  function Join(parts: seq<string>, sep: char): string
  {
    if |parts| == 0 then ""
    else if |parts| == 1 then parts[0]
    else parts[0] + [sep] + Join(parts[1..], sep)
  }

  /** Puts character `c` in front of the pieces of the rest of a string being split. */
  function Push(c: char, rest: seq<string>, sep: char): (parts: seq<string>)
    requires |rest| >= 1
  {
    if c == sep then [""] + rest else [[c] + rest[0]] + rest[1..]
  }

  /** Pushing a character only touches the first piece. */
  lemma PushAppend(c: char, a: seq<string>, b: seq<string>, sep: char)
    requires |a| >= 1
    ensures Push(c, a + b, sep) == Push(c, a, sep) + b
  {
    if c != sep {
      assert (a + b)[0] == a[0];
      assert (a + b)[1..] == a[1..] + b;
    }
  }

  /** `s.split(sep)`: the pieces between separators, always at least one
      (`"".split(sep) == [""]`), and joining them back gives `s`. */
  function Split(s: string, sep: char): (parts: seq<string>)
    ensures |parts| >= 1
    ensures forall i :: 0 <= i < |parts| ==> sep !in parts[i]
    ensures Join(parts, sep) == s
  {
    if |s| == 0 then [""]
    else
      var rest := Split(s[1..], sep);
      var parts := Push(s[0], rest, sep);
      assert s[0] == sep ==> parts[1..] == rest;
      assert s[0] != sep ==> parts[1..] == rest[1..];
      assert |rest| > 1 ==> Join(rest, sep) == rest[0] + [sep] + Join(rest[1..], sep);
      assert [s[0]] + s[1..] == s;
      parts
  }

  /** A string with no separator splits into itself alone. */
  lemma {:induction false} SplitNoSeparator(p: string, sep: char)
    requires sep !in p
    ensures Split(p, sep) == [p]
  {
    if |p| > 0 {
      assert sep !in p[1..];
      SplitNoSeparator(p[1..], sep);
      assert [p[0]] + p[1..] == p;
    }
  }

  /** Splitting is a homomorphism from "join with one separator" to concatenation. */
  lemma {:induction false} SplitConcat(p: string, t: string, sep: char)
    ensures Split(p + [sep] + t, sep) == Split(p, sep) + Split(t, sep)
  {
    var s := p + [sep] + t;
    if |p| == 0 {
      assert s == [sep] + t && s[1..] == t;
    } else {
      assert s[0] == p[0] && s[1..] == p[1..] + [sep] + t;
      SplitConcat(p[1..], t, sep);
      PushAppend(p[0], Split(p[1..], sep), Split(t, sep), sep);
    }
  }

  /** `Split` inverts `Join` for non-empty lists of separator-free pieces. */
  lemma {:induction false} SplitJoin(parts: seq<string>, sep: char)
    requires |parts| >= 1
    requires forall i :: 0 <= i < |parts| ==> sep !in parts[i]
    ensures Split(Join(parts, sep), sep) == parts
  {
    if |parts| == 1 {
      SplitNoSeparator(parts[0], sep);
    } else {
      SplitJoin(parts[1..], sep);
      SplitConcat(parts[0], Join(parts[1..], sep), sep);
      SplitNoSeparator(parts[0], sep);
      assert [parts[0]] + parts[1..] == parts;
    }
  }

  /** `s.split(sep)` has at least two pieces exactly when `sep` occurs in `s`. */
  lemma SplitHasSecondPiece(s: string, sep: char)
    ensures |Split(s, sep)| >= 2 <==> sep in s
  {
    var parts := Split(s, sep);
    if |parts| >= 2 {
      assert s == parts[0] + [sep] + Join(parts[1..], sep);
      assert s[|parts[0]|] == sep;
    }
  }

  /** Drops the leading characters satisfying `drop` (`str.lstrip`). */
  function TrimLeft(s: string, drop: char -> bool): (r: string)
    ensures |r| <= |s| && r == s[|s| - |r|..]
    ensures forall i :: 0 <= i < |s| - |r| ==> drop(s[i])
    ensures r == [] || !drop(r[0])
  {
    if |s| > 0 && drop(s[0]) then TrimLeft(s[1..], drop) else s
  }

  /** Drops the trailing characters satisfying `drop` (`str.rstrip`). */
  function TrimRight(s: string, drop: char -> bool): (r: string)
    ensures |r| <= |s| && r == s[..|r|]
    ensures forall i :: |r| <= i < |s| ==> drop(s[i])
    ensures r == [] || !drop(r[|r| - 1])
  {
    if |s| > 0 && drop(s[|s| - 1]) then TrimRight(s[..|s| - 1], drop) else s
  }

  /** `str.strip` with a character class: removes `drop` characters at both ends
      and keeps a contiguous piece of `s` whose ends are not `drop` characters. */
  function Trim(s: string, drop: char -> bool): (r: string)
    ensures |r| <= |s|
    ensures forall c :: c in r ==> c in s
    ensures r == [] || (!drop(r[0]) && !drop(r[|r| - 1]))
    ensures (forall i :: 0 <= i < |s| ==> drop(s[i])) ==> r == []
  {
    var l := TrimLeft(s, drop);
    var r := TrimRight(l, drop);
    assert forall c :: c in r ==> c in l;
    assert forall c :: c in l ==> c in s;
    r
  }

  /** What `Trim` keeps is one contiguous piece of `s`: everything before it
      and everything after it is dropped. */
  lemma TrimIsSlice(s: string, drop: char -> bool)
    ensures exists a, b :: (0 <= a <= b <= |s| && Trim(s, drop) == s[a..b]
      && (forall i :: 0 <= i < a ==> drop(s[i])) && (forall i :: b <= i < |s| ==> drop(s[i])))
  {
    var l := TrimLeft(s, drop);
    SliceBetween(s, l, Trim(s, drop), drop);
  }

  /** A prefix `r` of a suffix `l` of `s`, with only `drop` characters before `l`
      and after `r`, is a slice of `s` with only `drop` characters around it. */
  lemma SliceBetween(s: string, l: string, r: string, drop: char -> bool)
    requires |l| <= |s| && l == s[|s| - |l|..]
    requires forall i :: 0 <= i < |s| - |l| ==> drop(s[i])
    requires |r| <= |l| && r == l[..|r|]
    requires forall i :: |r| <= i < |l| ==> drop(l[i])
    ensures exists a, b :: (0 <= a <= b <= |s| && r == s[a..b]
      && (forall i :: 0 <= i < a ==> drop(s[i])) && (forall i :: b <= i < |s| ==> drop(s[i])))
  {
    var a, b := |s| - |l|, |s| - |l| + |r|;
    forall i | b <= i < |s|
      ensures drop(s[i])
    {
      assert s[i] == l[i - a];
    }
    assert r == s[a..b];
  }

  /** A string whose ends are kept by `drop` is left unchanged by `Trim`. */
  lemma TrimKeepsTrimmed(s: string, drop: char -> bool)
    requires s == [] || (!drop(s[0]) && !drop(s[|s| - 1]))
    ensures Trim(s, drop) == s
  {
  }

  /** Trimming a string whose ends are kept, followed by one dropped character,
      gives back the string. */
  lemma TrimDropsLast(w: string, c: char, drop: char -> bool)
    requires drop(c)
    requires w == [] || (!drop(w[0]) && !drop(w[|w| - 1]))
    ensures Trim(w + [c], drop) == w
  {
    if w == [] {
      assert TrimLeft([c], drop) == TrimLeft([], drop) == [];
    } else {
      assert (w + [c])[0] == w[0];
      assert TrimLeft(w + [c], drop) == w + [c];
      assert (w + [c])[..|w|] == w;
      assert TrimRight(w + [c], drop) == TrimRight(w, drop) == w;
    }
  }

  /** Python's `str.strip()` with no argument. */
  function Strip(s: string): string
  {
    Trim(s, IsSpace)
  }
}
