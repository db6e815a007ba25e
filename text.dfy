/** The string operations the components apply to resource paths: ASCII
    `toLowerCase`, `includes`, `split`, the `split("/").filter(Boolean).pop() || ""`
    display name, and JavaScript's `>` on strings. */
module Text {
  import opened Seqs

  function LowerChar(c: char): char
  {
    if 'A' <= c <= 'Z' then (c as int + 32) as char else c
  }

  /** `s.toLowerCase()`, restricted to ASCII letters. */
  function Lower(s: string): (r: string)
    ensures |r| == |s|
    ensures forall i :: 0 <= i < |s| ==> r[i] == LowerChar(s[i])
  {
    seq(|s|, i requires 0 <= i < |s| => LowerChar(s[i]))
  }

  predicate OccursAt(hay: string, needle: string, i: int)
  {
    0 <= i && i + |needle| <= |hay| && hay[i..i + |needle|] == needle
  }

  /** `hay.includes(needle)`: `needle` occurs in `hay` at some offset. */
  predicate Includes(hay: string, needle: string)
  {
    exists i :: 0 <= i <= |hay| - |needle| && OccursAt(hay, needle, i)
  }

  lemma IncludesEmpty(hay: string)
    ensures Includes(hay, "")
  {
    assert OccursAt(hay, "", 0);
  }

  /** `s.split(sep)` for a one-character separator: `""` splits into `[""]`, and
      every separator starts a new (possibly empty) piece. */
  function Split(s: string, sep: char): (r: seq<string>)
    ensures |r| >= 1
    ensures forall k :: 0 <= k < |r| ==> sep !in r[k]
    decreases |s|
  {
    if s == [] then [""]
    else
      var init := Split(s[..|s| - 1], sep);
      var c := s[|s| - 1];
      if c == sep then init + [""]
      else init[..|init| - 1] + [init[|init| - 1] + [c]]
  }

  /** `pieces.join(sep)`. */
  function Join(pieces: seq<string>, sep: char): string
    requires |pieces| >= 1
  {
    if |pieces| == 1 then pieces[0]
    else Join(pieces[..|pieces| - 1], sep) + [sep] + pieces[|pieces| - 1]
  }

  /** Joining the pieces of a split with the separator gives back the string. */
  lemma {:induction false} SplitJoin(s: string, sep: char)
    ensures Join(Split(s, sep), sep) == s
    decreases |s|
  {
    if s != [] {
      var init := Split(s[..|s| - 1], sep);
      SplitJoin(s[..|s| - 1], sep);
      var n := |init|;
      var c := s[|s| - 1];
      assert s == s[..|s| - 1] + [c];
      if c == sep {
        assert (init + [""])[..n] == init;
      } else {
        var r := init[..n - 1] + [init[n - 1] + [c]];
        assert r[..n - 1] == init[..n - 1];
        if n > 1 {
          assert Join(init, sep) == Join(init[..n - 1], sep) + [sep] + init[n - 1];
        }
      }
    }
  }

  /** The pieces with `p` appended to the last one. */
  function ExtendLast(pieces: seq<string>, p: string): (r: seq<string>)
    requires |pieces| >= 1
    ensures |r| == |pieces|
  {
    pieces[..|pieces| - 1] + [pieces[|pieces| - 1] + p]
  }

  lemma SplitSnoc(y: string, c: char, sep: char)
    requires c != sep
    ensures Split(y + [c], sep) == ExtendLast(Split(y, sep), [c])
  {
    assert (y + [c])[..|y|] == y;
  }

  lemma SplitSnocSep(y: string, sep: char)
    ensures Split(y + [sep], sep) == Split(y, sep) + [""]
  {
    assert (y + [sep])[..|y|] == y;
  }

  lemma ExtendLastTwice(pieces: seq<string>, q: string, c: char)
    requires |pieces| >= 1
    ensures ExtendLast(ExtendLast(pieces, q), [c]) == ExtendLast(pieces, q + [c])
  {
    var m := |pieces|;
    var e := ExtendLast(pieces, q);
    assert e[..m - 1] == pieces[..m - 1];
    assert e[m - 1] + [c] == pieces[m - 1] + (q + [c]);
  }

  /** Appending separator-free text extends the last piece of a split. */
  lemma {:induction false} SplitExtend(x: string, p: string, sep: char)
    requires sep !in p
    ensures Split(x + p, sep) == ExtendLast(Split(x, sep), p)
    decreases |p|
  {
    var pcs := Split(x, sep);
    if p == [] {
      assert x + p == x;
      assert pcs[|pcs| - 1] + p == pcs[|pcs| - 1];
      assert pcs[..|pcs| - 1] + [pcs[|pcs| - 1]] == pcs;
    } else {
      var q := p[..|p| - 1];
      var c := p[|p| - 1];
      assert p == q + [c];
      assert sep !in q && c != sep;
      SplitExtend(x, q, sep);
      assert x + p == (x + q) + [c];
      SplitSnoc(x + q, c, sep);
      ExtendLastTwice(pcs, q, c);
    }
  }

  /** Splitting a join of separator-free pieces gives back the pieces. */
  lemma {:induction false} JoinSplit(pieces: seq<string>, sep: char)
    requires |pieces| >= 1
    requires forall k :: 0 <= k < |pieces| ==> sep !in pieces[k]
    ensures Split(Join(pieces, sep), sep) == pieces
    decreases |pieces|
  {
    var n := |pieces|;
    if n == 1 {
      SplitExtend("", pieces[0], sep);
      assert "" + pieces[0] == pieces[0];
      assert Split("", sep) == [""];
    } else {
      var qs := pieces[..n - 1];
      JoinSplit(qs, sep);
      var y := Join(qs, sep) + [sep];
      SplitSnocSep(Join(qs, sep), sep);
      SplitExtend(y, pieces[n - 1], sep);
      assert (qs + [""])[..n - 1] == qs;
      assert "" + pieces[n - 1] == pieces[n - 1];
      assert qs + [pieces[n - 1]] == pieces;
    }
  }

  /** The longest suffix of `s` that contains no `sep`. */
  function TailRun(s: string, sep: char): (r: string)
    ensures sep !in r
    decreases |s|
  {
    if s == [] || s[|s| - 1] == sep then "" else TailRun(s[..|s| - 1], sep) + [s[|s| - 1]]
  }

  /** `path.split("/").filter(Boolean)`: the non-empty segments, in order. */
  function Segments(path: string): seq<string>
  {
    FilterOut(Split(path, '/'), {""})
  }

  /** `path.split("/").filter(Boolean).pop() || ""`: the display name of a resource. */
  function FileName(path: string): string
  {
    var segs := Segments(path);
    if segs == [] then "" else segs[|segs| - 1]
  }

  /** Reference definition of the display name, read from the end of the path:
      trailing slashes are skipped, then the run of non-slash characters is taken. */
  function LastSegment(path: string): (r: string)
    ensures '/' !in r
    decreases |path|
  {
    if path == [] then ""
    else if path[|path| - 1] == '/' then LastSegment(path[..|path| - 1])
    else TailRun(path, '/')
  }

  /** The last piece that `split` produces is the separator-free tail. */
  lemma {:induction false} SplitLast(s: string, sep: char)
    ensures Split(s, sep)[|Split(s, sep)| - 1] == TailRun(s, sep)
    decreases |s|
  {
    if s != [] {
      SplitLast(s[..|s| - 1], sep);
    }
  }

  /** A trailing slash adds only an empty piece, which the filter drops. */
  lemma SegmentsSlash(init: string)
    ensures Segments(init + ['/']) == Segments(init)
  {
    var path := init + ['/'];
    assert path[..|path| - 1] == init;
    FilterOutAppend(Split(init, '/'), [""], {""});
    assert FilterOut([""], {""}) == [];
  }

  /** A trailing non-slash character extends the last piece, which becomes the
      last segment: the tail run of the path. */
  lemma SegmentsChar(init: string, c: char)
    requires c != '/'
    ensures var segs := Segments(init + [c]); segs != [] && segs[|segs| - 1] == TailRun(init + [c], '/')
  {
    var path := init + [c];
    assert path[..|path| - 1] == init && path[|path| - 1] == c;
    var pieces := Split(init, '/');
    SplitLast(init, '/');
    var n := |pieces|;
    var last := pieces[n - 1] + [c];
    assert Split(path, '/') == pieces[..n - 1] + [last];
    FilterOutAppend(pieces[..n - 1], [last], {""});
    assert FilterOut([last], {""}) == [last] + FilterOut([], {""});
    assert TailRun(path, '/') == TailRun(init, '/') + [c];
  }

  /** The display name computed through `split`/`filter`/`pop` is the last
      non-empty segment of the path, or `""` when the path has none. */
  lemma {:induction false} FileNameIsLastSegment(path: string)
    ensures FileName(path) == LastSegment(path)
    decreases |path|
  {
    if path != [] {
      var init := path[..|path| - 1];
      var c := path[|path| - 1];
      assert path == init + [c];
      if c == '/' {
        FileNameIsLastSegment(init);
        SegmentsSlash(init);
      } else {
        SegmentsChar(init, c);
      }
    }
  }

  /** By the reference definition, a display name never contains a slash. */
  lemma FileNameHasNoSlash(path: string)
    ensures '/' !in FileName(path)
  {
    FileNameIsLastSegment(path);
  }

  /** JavaScript's `a < b` on strings: lexicographic on characters. */
  predicate LexLess(a: string, b: string)
    decreases |a|
  {
    if a == [] then b != []
    else if b == [] then false
    else if a[0] != b[0] then a[0] < b[0]
    else LexLess(a[1..], b[1..])
  }

  lemma {:induction false} LexLessIrreflexive(a: string)
    ensures !LexLess(a, a)
    decreases |a|
  {
    if a != [] {
      LexLessIrreflexive(a[1..]);
    }
  }

  /** `<` on strings is asymmetric. */
  lemma {:induction false} LexLessAsymmetric(a: string, b: string)
    requires LexLess(a, b)
    ensures !LexLess(b, a)
    decreases |a|
  {
    if a != [] && b != [] && a[0] == b[0] {
      LexLessAsymmetric(a[1..], b[1..]);
    }
  }

  /** `<` on strings is total on distinct strings. */
  lemma {:induction false} LexLessTotal(a: string, b: string)
    requires a != b
    ensures LexLess(a, b) || LexLess(b, a)
    decreases |a|
  {
    if a != [] && b != [] && a[0] == b[0] {
      assert a == [a[0]] + a[1..] && b == [b[0]] + b[1..];
      LexLessTotal(a[1..], b[1..]);
    }
  }

  lemma LowerIdempotent(s: string)
    ensures Lower(Lower(s)) == Lower(s)
  {
  }

  /** A string without the separator is its own tail run. */
  lemma {:induction false} TailRunWhole(s: string, sep: char)
    requires sep !in s
    ensures TailRun(s, sep) == s
    decreases |s|
  {
    if s != [] {
      assert sep !in s[..|s| - 1];
      TailRunWhole(s[..|s| - 1], sep);
      assert s[..|s| - 1] + [s[|s| - 1]] == s;
    }
  }

  /** Lowercasing commutes with taking the tail run after a separator that is
      not a letter. */
  lemma {:induction false} TailRunLower(s: string, sep: char)
    requires !('a' <= sep <= 'z') && !('A' <= sep <= 'Z')
    ensures TailRun(Lower(s), sep) == Lower(TailRun(s, sep))
    decreases |s|
  {
    if s != [] {
      var n := |s| - 1;
      assert Lower(s)[..n] == Lower(s[..n]);
      assert Lower(s)[n] == LowerChar(s[n]);
      TailRunLower(s[..n], sep);
      if s[n] != sep {
        assert Lower(TailRun(s[..n], sep) + [s[n]]) == Lower(TailRun(s[..n], sep)) + [LowerChar(s[n])];
      }
    }
  }
}
