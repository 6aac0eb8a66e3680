/** String and list helpers with the meaning of the Python built-ins the source uses
    (str.startswith, str.join, str.split, str.capitalize, str.lower, str.isnumeric,
    sorted, the "used more than once" comprehension). Characters are compared by
    code point, as Python compares str values. */
module Text {

  predicate StartsWith(s: string, prefix: string) {
    |prefix| <= |s| && s[..|prefix|] == prefix
  }

  /** `sep.join(parts)` */
  function Join(sep: string, parts: seq<string>): string
    decreases |parts|
  {
    if |parts| == 0 then ""
    else if |parts| == 1 then parts[0]
    else parts[0] + sep + Join(sep, parts[1..])
  }

  /** Joining pieces of equal lengths with separators of equal length gives strings
      of equal length. */
  lemma {:induction false} JoinLengthsAgree(sep: string, sep': string, p: seq<string>, q: seq<string>)
    requires |sep| == |sep'| && |p| == |q|
    requires forall i :: 0 <= i < |p| ==> |p[i]| == |q[i]|
    ensures |Join(sep, p)| == |Join(sep', q)|
    decreases |p|
  {
    if |p| > 1 {
      JoinLengthsAgree(sep, sep', p[1..], q[1..]);
    }
  }

  function Quote(s: string): string {
    "'" + s + "'"
  }

  /** `", ".join("'%s'" % x for x in xs)` */
  function QuotedList(xs: seq<string>): string {
    Join(", ", QuoteAll(xs))
  }

  function QuoteAll(xs: seq<string>): (r: seq<string>)
    ensures |r| == |xs|
    ensures forall i :: 0 <= i < |xs| ==> r[i] == Quote(xs[i])
  {
    if xs == [] then [] else [Quote(xs[0])] + QuoteAll(xs[1..])
  }

  function Repeat(c: char, n: nat): (r: string)
    ensures |r| == n
    ensures forall i :: 0 <= i < n ==> r[i] == c
  {
    if n == 0 then "" else [c] + Repeat(c, n - 1)
  }

  predicate IsDigit(c: char) {
    '0' <= c <= '9'
  }

  /** `s.isnumeric()`, restricted to ASCII digits: true iff `s` is non-empty and
      all of its characters are digits. */
  predicate IsNumeric(s: string) {
    |s| > 0 && forall i :: 0 <= i < |s| ==> IsDigit(s[i])
  }

  function DigitChar(d: nat): (c: char)
    requires d < 10
    ensures IsDigit(c)
  {
    ['0', '1', '2', '3', '4', '5', '6', '7', '8', '9'][d]
  }

  /** `str(n)` for a non-negative integer. */
  function NatToString(n: nat): (r: string)
    ensures IsNumeric(r)
    decreases n
  {
    if n < 10 then [DigitChar(n)] else NatToString(n / 10) + [DigitChar(n % 10)]
  }

  /** `str(i)` for any integer. */
  function IntToString(i: int): string {
    if i < 0 then "-" + NatToString(-i) else NatToString(i)
  }

  function LowerChar(c: char): char {
    if 'A' <= c <= 'Z' then (c as int + 32) as char else c
  }

  function UpperChar(c: char): char {
    if 'a' <= c <= 'z' then (c as int - 32) as char else c
  }

  /** `s.lower()`, ASCII letters only. */
  function Lower(s: string): (r: string)
    ensures |r| == |s|
    ensures forall i :: 0 <= i < |s| ==> r[i] == LowerChar(s[i])
  {
    if s == [] then [] else [LowerChar(s[0])] + Lower(s[1..])
  }

  /** Lower-casing twice is lower-casing once. */
  lemma LowerIdempotent(s: string)
    ensures Lower(Lower(s)) == Lower(s)
  {
    assert forall i :: 0 <= i < |s| ==> LowerChar(LowerChar(s[i])) == LowerChar(s[i]);
  }

  /** `w.capitalize()`: first character upper case, the rest lower case (ASCII letters only). */
  function Capitalize(w: string): (r: string)
    ensures |r| == |w|
  {
    if w == [] then [] else [UpperChar(w[0])] + Lower(w[1..])
  }

  /** `[w.capitalize() for w in ws]` */
  function CapitalizeAll(ws: seq<string>): (r: seq<string>)
    ensures |r| == |ws|
    ensures forall i :: 0 <= i < |ws| ==> r[i] == Capitalize(ws[i])
  {
    if ws == [] then [] else [Capitalize(ws[0])] + CapitalizeAll(ws[1..])
  }

  /** Changing the case of letters never produces a character that was not there as
      a non-letter: a piece free of `c` stays free of it once capitalised. */
  lemma CapitalizeKeepsOut(w: string, c: char)
    requires c !in w && !('A' <= c <= 'Z') && !('a' <= c <= 'z')
    ensures c !in Capitalize(w)
  {
    if w != [] {
      var r := Capitalize(w);
      forall i | 0 <= i < |w| ensures r[i] != c {
        if i > 0 { assert r[i] == Lower(w[1..])[i - 1] == LowerChar(w[i]); }
      }
    }
  }

  /** `s.split(c)` for a one-character separator: the pieces between separators,
      including empty pieces; the empty string gives one empty piece. */
  function Split(s: string, c: char): (r: seq<string>)
    ensures |r| >= 1
    decreases |s|
  {
    if s == [] then [""]
    else
      var rest := Split(s[1..], c);
      if s[0] == c then [""] + rest else [[s[0]] + rest[0]] + rest[1..]
  }

  /** Splitting and joining again with the same separator gives back the string,
      and no piece contains the separator. */
  lemma {:induction false} SplitJoin(s: string, c: char)
    ensures Join([c], Split(s, c)) == s
    ensures forall k :: 0 <= k < |Split(s, c)| ==> c !in Split(s, c)[k]
    decreases |s|
  {
    if s != [] {
      var rest := Split(s[1..], c);
      SplitJoin(s[1..], c);
      if s[0] == c {
        assert Split(s, c) == [""] + rest;
        assert Join([c], Split(s, c)) == "" + [c] + Join([c], rest);
        assert s == [s[0]] + s[1..];
      } else {
        var r := Split(s, c);
        assert r == [[s[0]] + rest[0]] + rest[1..];
        if |rest| == 1 {
          assert Join([c], r) == [s[0]] + rest[0];
          assert s == [s[0]] + s[1..];
        } else {
          assert r[1..] == rest[1..];
          assert Join([c], r) == [s[0]] + rest[0] + [c] + Join([c], rest[1..]);
          assert Join([c], rest) == rest[0] + [c] + Join([c], rest[1..]);
          assert s == [s[0]] + s[1..];
        }
        forall k | 0 <= k < |r| ensures c !in r[k] {
          if k > 0 { assert r[k] == rest[k]; }
        }
      }
    }
  }

  /** The pieces hold only characters of the string they were split from. */
  lemma {:induction false} SplitKeepsOut(s: string, c: char, d: char)
    requires d !in s
    ensures forall k :: 0 <= k < |Split(s, c)| ==> d !in Split(s, c)[k]
    decreases |s|
  {
    if s != [] {
      assert forall i :: 0 <= i < |s[1..]| ==> s[1..][i] == s[i + 1];
      SplitKeepsOut(s[1..], c, d);
      var rest := Split(s[1..], c);
      var r := Split(s, c);
      if s[0] != c {
        assert r[0] == [s[0]] + rest[0];
        forall k | 0 < k < |r| ensures d !in r[k] {
          assert r[k] == rest[k];
        }
      }
    }
  }

  /** The lengths of the pieces, in order. */
  function Lengths(parts: seq<string>): (r: seq<nat>)
    ensures |r| == |parts|
    ensures forall k :: 0 <= k < |parts| ==> r[k] == |parts[k]|
  {
    seq(|parts|, k requires 0 <= k < |parts| => |parts[k]|)
  }

  /** Where piece `k` starts in a join of pieces of the given lengths, with a
      separator of length `gap`. */
  function PieceStart(lengths: seq<nat>, gap: nat, k: nat): nat
    requires k <= |lengths|
    decreases k
  {
    if k == 0 then 0 else lengths[0] + gap + PieceStart(lengths[1..], gap, k - 1)
  }

  /** The part of `sep.join(parts)` from where piece `k` starts is the join of the
      pieces from `k` on; `widths` are the lengths of the pieces. */
  lemma {:induction false} JoinFrom(sep: string, parts: seq<string>, widths: seq<nat>, k: nat)
    requires |parts| == |widths| && k < |parts|
    requires forall j :: 0 <= j < |parts| ==> |parts[j]| == widths[j]
    ensures PieceStart(widths, |sep|, k) <= |Join(sep, parts)|
    ensures Join(sep, parts)[PieceStart(widths, |sep|, k)..] == Join(sep, parts[k..])
    decreases k
  {
    if k > 0 {
      assert forall j :: 0 <= j < |parts| - 1 ==> parts[1..][j] == parts[j + 1] && widths[1..][j] == widths[j + 1];
      JoinFrom(sep, parts[1..], widths[1..], k - 1);
      assert parts[1..][k - 1..] == parts[k..];
      var j := Join(sep, parts);
      assert j == parts[0] + sep + Join(sep, parts[1..]);
      assert j[widths[0] + |sep|..] == Join(sep, parts[1..]);
    }
  }

  /** In `sep.join(parts)` piece `k` sits at PieceStart, followed by the separator
      and the join of the later pieces, if any; `widths` are the lengths of the
      pieces. */
  lemma JoinPieceAt(sep: string, parts: seq<string>, widths: seq<nat>, k: nat)
    requires |parts| == |widths| && k < |parts|
    requires forall j :: 0 <= j < |parts| ==> |parts[j]| == widths[j]
    ensures PieceStart(widths, |sep|, k) + widths[k] <= |Join(sep, parts)|
    ensures Join(sep, parts)[PieceStart(widths, |sep|, k)..PieceStart(widths, |sep|, k) + widths[k]] == parts[k]
    ensures k + 1 < |parts| ==>
      Join(sep, parts)[PieceStart(widths, |sep|, k) + widths[k]..] == sep + Join(sep, parts[k + 1..])
  {
    JoinFrom(sep, parts, widths, k);
    var q := parts[k..];
    assert q[0] == parts[k] && q[1..] == parts[k + 1..];
    JoinHead(sep, q);
    SuffixOfSuffix(Join(sep, parts), PieceStart(widths, |sep|, k), Join(sep, q), q[0]);
  }

  /** A join starts with its first piece, then the separator and the join of the
      rest. */
  lemma JoinHead(sep: string, q: seq<string>)
    requires q != []
    ensures Join(sep, q) == q[0] + (if |q| > 1 then sep + Join(sep, q[1..]) else [])
  {
  }

  /** Where the suffix of `s` from `start` begins with `a`, `s` holds `a` at
      `start`, and what follows it is the rest of that suffix. */
  lemma SuffixOfSuffix(s: string, start: nat, t: string, a: string)
    requires start <= |s| && s[start..] == t && |a| <= |t| && t[..|a|] == a
    ensures start + |a| <= |s| && s[start..start + |a|] == a && s[start + |a|..] == t[|a|..]
  {
    assert s[start..start + |a|] == s[start..][..|a|];
    assert s[start + |a|..] == s[start..][|a|..];
  }

  /** In `sep.join(parts)` the separator follows every piece but the last. */
  lemma JoinSepAfter(sep: string, parts: seq<string>, widths: seq<nat>, k: nat)
    requires |parts| == |widths| && k + 1 < |parts|
    requires forall j :: 0 <= j < |parts| ==> |parts[j]| == widths[j]
    ensures PieceStart(widths, |sep|, k) + widths[k] + |sep| <= |Join(sep, parts)|
    ensures Join(sep, parts)[PieceStart(widths, |sep|, k) + widths[k]..PieceStart(widths, |sep|, k) + widths[k] + |sep|] == sep
  {
    JoinPieceAt(sep, parts, widths, k);
    var rest := sep + Join(sep, parts[k + 1..]);
    SuffixOfSuffix(Join(sep, parts), PieceStart(widths, |sep|, k) + widths[k], rest, sep);
  }

  /** Consecutive pieces start a piece and a separator apart. */
  lemma {:induction false} PieceStartNext(lengths: seq<nat>, gap: nat, k: nat)
    requires k < |lengths|
    ensures PieceStart(lengths, gap, k + 1) == PieceStart(lengths, gap, k) + lengths[k] + gap
    decreases k
  {
    if k > 0 {
      PieceStartNext(lengths[1..], gap, k - 1);
    }
  }

  /** A character absent from the separator and from every piece is absent from
      the joined string. */
  lemma {:induction false} JoinKeepsOut(sep: string, parts: seq<string>, c: char)
    requires c !in sep && forall k :: 0 <= k < |parts| ==> c !in parts[k]
    ensures c !in Join(sep, parts)
    decreases |parts|
  {
    if |parts| > 1 {
      JoinKeepsOut(sep, parts[1..], c);
      assert parts[1..][0] == parts[1];
    }
  }

  /** A piece free of the separator, followed by the separator, splits off as the
      first piece. */
  lemma {:induction false} SplitAfterPiece(x: string, c: char, t: string)
    requires c !in x
    ensures Split(x + [c] + t, c) == [x] + Split(t, c)
    decreases |x|
  {
    if x == [] {
      assert x + [c] + t == [c] + t;
      assert ([c] + t)[1..] == t;
    } else {
      SplitAfterPiece(x[1..], c, t);
      var s := x + [c] + t;
      assert s[1..] == x[1..] + [c] + t;
      assert x == [x[0]] + x[1..];
    }
  }

  /** A piece free of the separator splits into itself alone. */
  lemma {:induction false} SplitOfPiece(x: string, c: char)
    requires c !in x
    ensures Split(x, c) == [x]
    decreases |x|
  {
    if x != [] {
      SplitOfPiece(x[1..], c);
      assert x == [x[0]] + x[1..];
    }
  }

  /** Joining pieces free of the separator and splitting again gives back the
      pieces: `c.join` and `split(c)` are inverse on such lists. */
  lemma {:induction false} SplitOfJoin(parts: seq<string>, c: char)
    requires |parts| >= 1
    requires forall k :: 0 <= k < |parts| ==> c !in parts[k]
    ensures Split(Join([c], parts), c) == parts
    decreases |parts|
  {
    if |parts| == 1 {
      SplitOfPiece(parts[0], c);
    } else {
      SplitOfJoin(parts[1..], c);
      SplitAfterPiece(parts[0], c, Join([c], parts[1..]));
      assert parts == [parts[0]] + parts[1..];
    }
  }

  /** Number of occurrences of `x` in `s`: `sum([1 for a in s if a == x])`. */
  function Count<T(==)>(s: seq<T>, x: T): (n: nat)
    ensures n > 0 <==> x in s
  {
    if s == [] then 0 else (if s[0] == x then 1 else 0) + Count(s[1..], x)
  }

  predicate NoDuplicates<T(==)>(s: seq<T>) {
    forall i, j :: 0 <= i < j < |s| ==> s[i] != s[j]
  }

  /** The elements of `s` in order of first occurrence, each once. */
  function Dedup(s: seq<string>): (r: seq<string>)
    ensures forall x :: x in r <==> x in s
    ensures NoDuplicates(r)
    decreases |s|
  {
    if s == [] then []
    else
      var rest := Dedup(s[1..]);
      if s[0] in rest then rest else [s[0]] + rest
  }

  function KeepMultiple(s: seq<string>, all: seq<string>): (r: seq<string>)
    ensures forall x :: x in r <==> x in s && Count(all, x) > 1
  {
    if s == [] then []
    else (if Count(all, s[0]) > 1 then [s[0]] else []) + KeepMultiple(s[1..], all)
  }

  /** `set([i for i in s if sum([1 for a in s if a == i]) > 1])`, listed in order of
      first occurrence (Python's set has its own, unspecified order). */
  function Duplicates(s: seq<string>): (r: seq<string>)
    ensures forall x :: x in r <==> Count(s, x) > 1
    ensures NoDuplicates(r)
  {
    Dedup(KeepMultiple(s, s))
  }

  /** A value occurs more than once exactly when two different positions hold it. */
  lemma {:induction false} CountAboveOne<T>(s: seq<T>, x: T)
    ensures Count(s, x) > 1 <==> exists i, j :: 0 <= i < j < |s| && s[i] == x && s[j] == x
    decreases |s|
  {
    if s != [] {
      CountAboveOne(s[1..], x);
      if Count(s, x) > 1 {
        if s[0] == x {
          var j :| 0 <= j < |s[1..]| && s[1..][j] == x;
          assert s[0] == x && s[j + 1] == x;
        } else {
          var i, j :| 0 <= i < j < |s[1..]| && s[1..][i] == x && s[1..][j] == x;
          assert s[i + 1] == x && s[j + 1] == x;
        }
      }
      if exists i, j :: 0 <= i < j < |s| && s[i] == x && s[j] == x {
        var i, j :| 0 <= i < j < |s| && s[i] == x && s[j] == x;
        if i == 0 {
          assert s[1..][j - 1] == x;
        } else {
          assert s[1..][i - 1] == x && s[1..][j - 1] == x;
        }
      }
    }
  }

  /** Python's `<` on str: lexicographic by code point. */
  predicate Less(a: string, b: string)
    decreases |a|
  {
    if |a| == 0 then |b| > 0
    else if |b| == 0 then false
    else if a[0] != b[0] then a[0] < b[0]
    else Less(a[1..], b[1..])
  }

  lemma {:induction false} LessIrreflexive(a: string)
    ensures !Less(a, a)
    decreases |a|
  {
    if |a| > 0 { LessIrreflexive(a[1..]); }
  }

  lemma {:induction false} LessTransitive(a: string, b: string, c: string)
    requires Less(a, b) && Less(b, c)
    ensures Less(a, c)
    decreases |a|
  {
    if |a| > 0 && a[0] == b[0] && b[0] == c[0] {
      LessTransitive(a[1..], b[1..], c[1..]);
    }
  }

  lemma {:induction false} LessTotal(a: string, b: string)
    requires a != b
    ensures Less(a, b) || Less(b, a)
    decreases |a|
  {
    if |a| > 0 && |b| > 0 && a[0] == b[0] {
      assert a == [a[0]] + a[1..] && b == [b[0]] + b[1..];
      LessTotal(a[1..], b[1..]);
    }
  }

  /** Strictly increasing, hence also free of duplicates. */
  predicate StrictlySorted(s: seq<string>) {
    forall i, j :: 0 <= i < j < |s| ==> Less(s[i], s[j])
  }

  /** Inserts `x` into a strictly sorted list, unless it is already there. */
  function Insert(x: string, s: seq<string>): (r: seq<string>)
    requires StrictlySorted(s)
    ensures StrictlySorted(r)
    ensures forall y :: y in r <==> y == x || y in s
  {
    if s == [] then [x]
    else if x == s[0] then s
    else if Less(x, s[0]) then
      assert forall j :: 0 < j < |s| ==> Less(x, s[j]) by {
        forall j | 0 < j < |s| ensures Less(x, s[j]) { LessTransitive(x, s[0], s[j]); }
      }
      [x] + s
    else
      LessTotal(x, s[0]);
      var rest := Insert(x, s[1..]);
      assert forall y :: y in rest ==> Less(s[0], y);
      [s[0]] + rest
  }

  /** `sorted(set(xs))`: the distinct elements of `xs` in increasing order. */
  function SortedSet(xs: seq<string>): (r: seq<string>)
    ensures StrictlySorted(r)
    ensures forall y :: y in r <==> y in xs
  {
    if xs == [] then [] else Insert(xs[0], SortedSet(xs[1..]))
  }

  /** The head of a strictly sorted list is below every other element. */
  lemma SortedHeadIsLeast(r: seq<string>, y: string)
    requires StrictlySorted(r) && y in r
    ensures y == r[0] || Less(r[0], y)
  {
  }

  /** A strictly sorted list is determined by its elements: the sorted listing of a
      set is unique. */
  lemma {:induction false} SortedUnique(r: seq<string>, q: seq<string>)
    requires StrictlySorted(r) && StrictlySorted(q)
    requires forall y :: y in r <==> y in q
    ensures r == q
    decreases |r|
  {
    if r != [] { assert r[0] in r; }
    if q != [] { assert q[0] in q; }
    if r != [] {
      SortedHeadIsLeast(q, r[0]);
      SortedHeadIsLeast(r, q[0]);
      if r[0] != q[0] {
        LessTransitive(r[0], q[0], r[0]);
        LessIrreflexive(r[0]);
      }
      forall y ensures y in r[1..] <==> y in q[1..] {
        if y in r[1..] {
          var i :| 0 <= i < |r[1..]| && r[1..][i] == y;
          assert r[i + 1] == y && Less(r[0], y);
          if y == q[0] { LessIrreflexive(y); }
          assert y in q;
        }
        if y in q[1..] {
          var i :| 0 <= i < |q[1..]| && q[1..][i] == y;
          assert q[i + 1] == y && Less(q[0], y);
          if y == r[0] { LessIrreflexive(y); }
          assert y in r;
        }
      }
      SortedUnique(r[1..], q[1..]);
      assert r == [r[0]] + r[1..] && q == [q[0]] + q[1..];
    }
  }
}
