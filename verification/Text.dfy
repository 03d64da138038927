/**
 * The Python `str` operations the scraper relies on, over `string` = `seq<char>`:
 * `strip()`, `sep.join(parts)`, `s.split(sep)`, `replace(c, '')`, `isdigit()`,
 * line iteration over a text file, and the `<` comparison that `sorted` uses.
 */
module Text {

  /** Python's `str.isspace()` on one character: what `strip()` removes. */
  predicate IsSpace(c: char) {
    || c == ' '
    || '\t' <= c <= '\r'
    || '\U{1c}' <= c <= '\U{1f}'
    || c == '\U{85}' || c == '\U{a0}' || c == '\U{1680}'
    || '\U{2000}' <= c <= '\U{200a}'
    || c == '\U{2028}' || c == '\U{2029}' || c == '\U{202f}' || c == '\U{205f}' || c == '\U{3000}'
  }

  predicate AllSpace(s: string) {
    forall k :: 0 <= k < |s| ==> IsSpace(s[k])
  }

  /** Neither end of `s` is whitespace. */
  predicate Trimmed(s: string) {
    s == [] || (!IsSpace(s[0]) && !IsSpace(s[|s| - 1]))
  }

  /** `s.lstrip()`: the suffix that starts at the first non-whitespace character. */
  function TrimLeft(s: string): (r: string)
    ensures |r| <= |s| && r == s[|s| - |r|..]
    ensures AllSpace(s[..|s| - |r|])
    ensures r == [] || !IsSpace(r[0])
    decreases |s|
  {
    if s != [] && IsSpace(s[0]) then
      var r := TrimLeft(s[1..]);
      assert s[1..][|s| - 1 - |r|..] == s[|s| - |r|..];
      assert s[..|s| - |r|] == [s[0]] + s[1..][..|s| - 1 - |r|];
      assert AllSpace([s[0]] + s[1..][..|s| - 1 - |r|]);
      r
    else s
  }

  /** `s.rstrip()`: the prefix that ends at the last non-whitespace character. */
  function TrimRight(s: string): (r: string)
    ensures |r| <= |s| && r == s[..|r|]
    ensures AllSpace(s[|r|..])
    ensures r == [] || !IsSpace(r[|r| - 1])
    decreases |s|
  {
    if s != [] && IsSpace(s[|s| - 1]) then
      var r := TrimRight(s[..|s| - 1]);
      assert s[|r|..] == s[..|s| - 1][|r|..] + [s[|s| - 1]];
      r
    else s
  }

  /** `s.strip()` */
  function Strip(s: string): (r: string)
    ensures Trimmed(r) && |r| <= |s|
  {
    TrimRight(TrimLeft(s))
  }

  lemma TrimLeftAllSpace(s: string)
    requires AllSpace(s)
    ensures TrimLeft(s) == []
  {
    var r := TrimLeft(s);
    if r != [] {
      assert false;
    }
  }

  lemma TrimLeftPadded(a: string, y: string)
    requires AllSpace(a) && y != [] && !IsSpace(y[0])
    ensures TrimLeft(a + y) == y
  {
    var s := a + y;
    var r := TrimLeft(s);
    var cut := |s| - |r|;
    if cut > |a| {
      SpaceInHead(s, cut, |a|);
      assert false;
    }
    if cut < |a| {
      assert false;
    }
    assert r == s[|a|..] == y;
  }

  lemma TrimRightPadded(x: string, b: string)
    requires AllSpace(b) && (x == [] || !IsSpace(x[|x| - 1]))
    ensures TrimRight(x + b) == x
  {
    var s := x + b;
    var r := TrimRight(s);
    if |r| > |x| {
      assert false;
    }
    if |r| < |x| {
      SpaceInTail(s, |r|, |x| - 1);
      assert false;
    }
    assert s[..|x|] == x;
  }

  lemma SpaceInHead(s: string, i: nat, j: nat)
    requires j < i <= |s| && AllSpace(s[..i])
    ensures IsSpace(s[j])
  {
    assert s[j] == s[..i][j];
  }

  lemma SpaceInTail(s: string, i: nat, j: nat)
    requires i <= j < |s| && AllSpace(s[i..])
    ensures IsSpace(s[j])
  {
    assert s[j] == s[i..][j - i];
  }

  /** Stripping whitespace padding off a trimmed text gives back exactly that text. */
  lemma StripPadding(a: string, x: string, b: string)
    requires AllSpace(a) && AllSpace(b) && Trimmed(x)
    ensures Strip(a + x + b) == x
  {
    assert a + x + b == a + (x + b);
    if x == [] {
      assert a + (x + b) == a + b;
      TrimLeftAllSpace(a + b);
    } else {
      assert (x + b)[0] == x[0];
      TrimLeftPadded(a, x + b);
      TrimRightPadded(x, b);
    }
  }

  /** Only an all-whitespace text strips to nothing. */
  lemma StripEmpty(s: string)
    ensures Strip(s) == [] <==> AllSpace(s)
  {
    var l := TrimLeft(s);
    if AllSpace(s) {
      TrimLeftAllSpace(s);
    }
    if Strip(s) == [] {
      assert l[|TrimRight(l)|..] == l;
      forall k | 0 <= k < |s|
        ensures IsSpace(s[k])
      {
        SpaceInHead(s, |s|, k);
      }
    }
  }

  /** The text starts with no whitespace. */
  predicate StartsClean(s: string) {
    s == [] || !IsSpace(s[0])
  }

  /** The text ends with no whitespace. */
  predicate EndsClean(s: string) {
    s == [] || !IsSpace(s[|s| - 1])
  }

  /** `sep.join(parts)` */
  function Join(sep: string, parts: seq<string>): (r: string)
    ensures parts != [] ==> |parts[0]| <= |r| && r[..|parts[0]|] == parts[0]
    decreases |parts|
  {
    if |parts| == 0 then ""
    else if |parts| == 1 then parts[0]
    else
      parts[0] + sep + Join(sep, parts[1..])
  }

  /**
   * `s.split(sep)` for a non-empty separator: the pieces between the
   * occurrences of `sep` found scanning from the left.
   */
  function Split(s: string, sep: string): (pieces: seq<string>)
    requires sep != []
    ensures |pieces| >= 1
    decreases |s|
  {
    if |s| < |sep| then [s]
    else if s[..|sep|] == sep then [""] + Split(s[|sep|..], sep)
    else
      var rest := Split(s[1..], sep);
      [[s[0]] + rest[0]] + rest[1..]
  }

  /** `sub` occurs in `s` (Python's `sub in s`). */
  predicate Contains(s: string, sub: string) {
    exists i :: 0 <= i <= |s| - |sub| && OccursAt(s, sub, i)
  }

  predicate OccursAt(s: string, sub: string, i: int)
    requires 0 <= i <= |s| - |sub|
  {
    s[i..i + |sub|] == sub
  }

  lemma JoinPrepend(sep: string, c: char, parts: seq<string>)
    requires |parts| >= 1
    ensures Join(sep, [[c] + parts[0]] + parts[1..]) == [c] + Join(sep, parts)
  {
    var q := [[c] + parts[0]] + parts[1..];
    if |parts| > 1 {
      assert q[1..] == parts[1..];
    }
  }

  /** Joining the pieces of a split with its separator restores the text. */
  lemma {:induction false} JoinSplit(s: string, sep: string)
    requires sep != []
    ensures Join(sep, Split(s, sep)) == s
    decreases |s|
  {
    if |s| < |sep| {
    } else if s[..|sep|] == sep {
      var rest := Split(s[|sep|..], sep);
      JoinSplit(s[|sep|..], sep);
      assert ([""] + rest)[1..] == rest;
      assert s == sep + s[|sep|..];
    } else {
      var rest := Split(s[1..], sep);
      JoinSplit(s[1..], sep);
      JoinPrepend(sep, s[0], rest);
      assert s == [s[0]] + s[1..];
    }
  }

  /** No piece of a split on a one-character separator contains that character. */
  lemma {:induction false} SplitPiecesFree(s: string, c: char)
    ensures forall k :: 0 <= k < |Split(s, [c])| ==> c !in Split(s, [c])[k]
    decreases |s|
  {
    if |s| < 1 {
    } else if s[..1] == [c] {
      SplitPiecesFree(s[1..], c);
    } else {
      SplitPiecesFree(s[1..], c);
      assert s[0] != c by { assert s[..1] == [s[0]]; }
    }
  }

  /** Without the separator character, a text splits into itself alone. */
  lemma {:induction false} SplitWithout(s: string, c: char)
    requires c !in s
    ensures Split(s, [c]) == [s]
    decreases |s|
  {
    if |s| >= 1 {
      assert s[..1] == [s[0]] != [c];
      SplitWithout(s[1..], c);
      assert [s[0]] + s[1..] == s;
    }
  }

  /** A split on `c` cuts at the first `c`. */
  lemma {:induction false} SplitAtFirst(a: string, c: char, b: string)
    requires c !in a
    ensures Split(a + [c] + b, [c]) == [a] + Split(b, [c])
    decreases |a|
  {
    var s := a + [c] + b;
    if a == [] {
      assert s[..1] == [c] && s[1..] == b;
    } else {
      assert s[..1] == [a[0]] != [c];
      assert s[1..] == a[1..] + [c] + b;
      SplitAtFirst(a[1..], c, b);
      assert [a[0]] + a[1..] == a;
    }
  }

  /** Splitting a join on a one-character separator absent from the parts restores the parts. */
  lemma {:induction false} SplitJoin(parts: seq<string>, c: char)
    requires |parts| >= 1
    requires forall k :: 0 <= k < |parts| ==> c !in parts[k]
    ensures Split(Join([c], parts), [c]) == parts
    decreases |parts|
  {
    if |parts| == 1 {
      SplitWithout(parts[0], c);
    } else {
      SplitAtFirst(parts[0], c, Join([c], parts[1..]));
      SplitJoin(parts[1..], c);
      assert [parts[0]] + parts[1..] == parts;
    }
  }

  /** A join starts with its first part, or with the separator when that part is empty. */
  lemma JoinStartsClean(sep: string, parts: seq<string>)
    requires |parts| >= 1 && sep != [] && StartsClean(sep) && StartsClean(parts[0])
    ensures StartsClean(Join(sep, parts))
  {
    if |parts| > 1 && parts[0] == [] {
      assert Join(sep, parts) == sep + Join(sep, parts[1..]);
      assert Join(sep, parts)[0] == sep[0];
    } else if |parts| > 1 {
      assert Join(sep, parts)[0] == parts[0][0];
    }
  }

  /** A join ends with its last part, or with the separator when that part is empty. */
  lemma {:induction false} JoinEndsClean(sep: string, parts: seq<string>)
    requires |parts| >= 1 && sep != [] && EndsClean(sep) && EndsClean(parts[|parts| - 1])
    ensures EndsClean(Join(sep, parts))
    decreases |parts|
  {
    if |parts| > 1 {
      var rest := Join(sep, parts[1..]);
      JoinEndsClean(sep, parts[1..]);
      var j := parts[0] + sep + rest;
      if rest == [] {
        assert j == parts[0] + sep;
        assert j[|j| - 1] == sep[|sep| - 1];
      } else {
        assert j[|j| - 1] == rest[|rest| - 1];
      }
    }
  }

  /** A character in neither the separator nor the parts is not in their join. */
  lemma {:induction false} JoinWithout(sep: string, parts: seq<string>, c: char)
    requires c !in sep && forall k :: 0 <= k < |parts| ==> c !in parts[k]
    ensures c !in Join(sep, parts)
    decreases |parts|
  {
    if |parts| > 1 {
      JoinWithout(sep, parts[1..], c);
    }
  }

  /** `s.replace(c, '')` for a one-character `c`: every `c` removed. */
  function Remove(s: string, c: char): (r: string)
    ensures c !in r && |r| <= |s|
    ensures forall k :: 0 <= k < |s| && s[k] != c ==> s[k] in r
    ensures forall k :: 0 <= k < |r| ==> r[k] in s
    decreases |s|
  {
    if s == [] then []
    else if s[0] == c then Remove(s[1..], c)
    else [s[0]] + Remove(s[1..], c)
  }

  /** Removal distributes over concatenation, so the kept characters stay in their order. */
  lemma {:induction false} RemoveAppend(a: string, b: string, c: char)
    ensures Remove(a + b, c) == Remove(a, c) + Remove(b, c)
    decreases |a|
  {
    if a == [] {
      assert [] + b == b;
    } else {
      assert (a + b)[1..] == a[1..] + b;
      RemoveAppend(a[1..], b, c);
    }
  }

  /** On one character: `c` itself goes, any other character stays. */
  lemma RemoveOne(d: char, c: char)
    ensures Remove([d], c) == (if d == c then [] else [d])
  {
    assert [d][1..] == [];
  }

  /** Each character other than `c` is kept as often as it occurs, and no `c` is. */
  lemma {:induction false} RemoveCounts(s: string, c: char)
    ensures multiset(Remove(s, c)) == multiset(s)[c := 0]
    decreases |s|
  {
    if s != [] {
      RemoveCounts(s[1..], c);
      assert s == [s[0]] + s[1..];
      assert multiset(s) == multiset{s[0]} + multiset(s[1..]);
    }
  }

  /** A text without `c` is unchanged. */
  lemma {:induction false} RemoveAbsent(s: string, c: char)
    requires c !in s
    ensures Remove(s, c) == s
    decreases |s|
  {
    if s != [] {
      RemoveAbsent(s[1..], c);
      assert [s[0]] + s[1..] == s;
    }
  }

  /** `s.isdigit()`, for the ASCII digits: non-empty and all digits. */
  predicate IsDigits(s: string)
    ensures IsDigits(s) ==> Trimmed(s)  // digits are not whitespace
  {
    s != [] && forall k :: 0 <= k < |s| ==> '0' <= s[k] <= '9'
  }

  /**
   * The lines `for line in f` yields from a text file: each ends with its
   * '\n', except a last line that has none.
   */
  function Lines(s: string): (lines: seq<string>)
    ensures forall i :: 0 <= i < |lines| ==> lines[i] != []
    ensures forall i :: 0 <= i < |lines| - 1 ==> lines[i][|lines[i]| - 1] == '\n'
    decreases |s|
  {
    if s == [] then []
    else if s[0] == '\n' then ["\n"] + Lines(s[1..])
    else
      var rest := Lines(s[1..]);
      if rest == [] then [s] else [[s[0]] + rest[0]] + rest[1..]
  }

  /** The lines put back together are the whole text. */
  lemma {:induction false} LinesJoin(s: string)
    ensures Join("", Lines(s)) == s
    decreases |s|
  {
    if s != [] {
      var rest := Lines(s[1..]);
      LinesJoin(s[1..]);
      if s[0] == '\n' {
        assert (["\n"] + rest)[1..] == rest;
        assert s == "\n" + s[1..];
      } else if rest != [] {
        JoinPrepend("", s[0], rest);
        assert s == [s[0]] + s[1..];
      }
    }
  }

  /** A line without '\n' followed by '\n' is read back as one line. */
  lemma {:induction false} LinesFirst(x: string, rest: string)
    requires '\n' !in x
    ensures Lines(x + "\n" + rest) == [x + "\n"] + Lines(rest)
    decreases |x|
  {
    var s := x + "\n" + rest;
    if x == [] {
      assert s[0] == '\n' && s[1..] == rest;
      assert x + "\n" == "\n";
    } else {
      assert s[0] == x[0] != '\n';
      assert s[1..] == x[1..] + "\n" + rest;
      LinesFirst(x[1..], rest);
      assert [x[0]] + (x[1..] + "\n") == x + "\n";
    }
  }

  /** Python's `a < b` on `str`: lexicographic by code point, a proper prefix first. */
  predicate Below(a: string, b: string)
    ensures Below(a, b) ==> a != b
    decreases |a|
  {
    if a == [] then b != []
    else b != [] && (a[0] < b[0] || (a[0] == b[0] && Below(a[1..], b[1..])))
  }

  lemma {:induction false} BelowAsymmetric(a: string, b: string)
    requires Below(a, b)
    ensures !Below(b, a)
    decreases |a|
  {
    if a != [] && a[0] == b[0] {
      BelowAsymmetric(a[1..], b[1..]);
    }
  }

  lemma {:induction false} BelowTransitive(a: string, b: string, c: string)
    requires Below(a, b) && Below(b, c)
    ensures Below(a, c)
    decreases |a|
  {
    if a != [] && a[0] == b[0] == c[0] {
      BelowTransitive(a[1..], b[1..], c[1..]);
    }
  }

  lemma {:induction false} BelowTotal(a: string, b: string)
    ensures a == b || Below(a, b) || Below(b, a)
    decreases |a|
  {
    if a != [] && b != [] && a[0] == b[0] {
      BelowTotal(a[1..], b[1..]);
      if a[1..] == b[1..] {
        assert a == [a[0]] + a[1..] && b == [b[0]] + b[1..];
      }
    }
  }

  /** Comparing texts that start with pieces of equal width compares those pieces first. */
  lemma {:induction false} BelowAppend(x1: string, y1: string, x2: string, y2: string)
    requires |x1| == |x2|
    ensures Below(x1 + y1, x2 + y2) <==> Below(x1, x2) || (x1 == x2 && Below(y1, y2))
    ensures x1 + y1 == x2 + y2 <==> x1 == x2 && y1 == y2
    decreases |x1|
  {
    if x1 != [] {
      assert (x1 + y1)[1..] == x1[1..] + y1;
      assert (x2 + y2)[1..] == x2[1..] + y2;
      BelowAppend(x1[1..], y1, x2[1..], y2);
      if x1[0] == x2[0] && x1[1..] == x2[1..] {
        assert x1 == [x1[0]] + x1[1..] && x2 == [x2[0]] + x2[1..];
      }
    } else {
      assert x1 + y1 == y1 && x2 + y2 == y2;
    }
    if x1 + y1 == x2 + y2 {
      assert x1 == (x1 + y1)[..|x1|] && x2 == (x2 + y2)[..|x2|];
      assert y1 == (x1 + y1)[|x1|..] && y2 == (x2 + y2)[|x2|..];
    }
  }
}
