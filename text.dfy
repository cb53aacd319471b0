/** The JavaScript string operations the decoders are built from: the
    regular-expression class `\s` (also the set `trim()` strips), `trim()`,
    `split` on a one-character separator, and `toLowerCase()` restricted to
    ASCII letters. */
module Text {

  /** The characters `\s` matches: ECMAScript WhiteSpace (tab, vertical tab,
      form feed, the zero-width no-break space and every Unicode space
      separator) and LineTerminator (line feed, carriage return, line and
      paragraph separators). */
  predicate IsWhitespace(c: char): (r: bool)
    ensures c == '\n' || c == '\r' || c == '\t' || c == ' ' ==> r
    ensures c == '|' || 'A' <= c <= 'Z' || 'a' <= c <= 'z' || '0' <= c <= '9' ==> !r
  {
    c == '\t' || c == '\n' || c == '\U{B}' || c == '\U{C}' || c == '\r' || c == ' '
    || c == '\U{A0}' || c == '\U{1680}' || ('\U{2000}' <= c <= '\U{200A}')
    || c == '\U{2028}' || c == '\U{2029}' || c == '\U{202F}' || c == '\U{205F}'
    || c == '\U{3000}' || c == '\U{FEFF}'
  }

  predicate NoWhitespace(s: string) {
    forall c :: c in s ==> !IsWhitespace(c)
  }

  predicate AllWhitespace(s: string) {
    forall i :: 0 <= i < |s| ==> IsWhitespace(s[i])
  }

  /** `s` with its leading whitespace removed (see `TrimStartShape`). */
  function TrimStart(s: string): (r: string)
    ensures |r| <= |s|
  {
    if s != [] && IsWhitespace(s[0]) then TrimStart(s[1..]) else s
  }

  /** What `TrimStart` leaves: a suffix of `s` that does not start with
      whitespace, everything before it being whitespace. */
  lemma {:induction false} TrimStartShape(s: string)
    ensures var r := TrimStart(s);
      && r == s[|s| - |r|..]
      && AllWhitespace(s[..|s| - |r|])
      && (r == [] || !IsWhitespace(r[0]))
  {
    if s != [] && IsWhitespace(s[0]) {
      TrimStartShape(s[1..]);
      var r := TrimStart(s[1..]);
      var k := |s| - |r|;
      assert s[1..][k - 1..] == s[k..];
      assert s[..k] == [s[0]] + s[1..][..k - 1];
      AllWhitespaceCons(s[0], s[1..][..k - 1]);
    }
  }

  /** A whitespace character in front of whitespace is whitespace. */
  lemma AllWhitespaceCons(c: char, t: string)
    requires IsWhitespace(c) && AllWhitespace(t)
    ensures AllWhitespace([c] + t)
  {
    forall i | 0 <= i < |t| + 1
      ensures IsWhitespace(([c] + t)[i])
    {
      if i > 0 {
        assert ([c] + t)[i] == t[i - 1];
      }
    }
  }

  /** `s` with its trailing whitespace removed (see `TrimEndShape`). */
  function TrimEnd(s: string): (r: string)
    ensures |r| <= |s|
  {
    if s != [] && IsWhitespace(s[|s| - 1]) then TrimEnd(s[..|s| - 1]) else s
  }

  /** What `TrimEnd` leaves: a prefix of `s` that does not end with
      whitespace, everything after it being whitespace. */
  lemma {:induction false} TrimEndShape(s: string)
    ensures var r := TrimEnd(s);
      && r == s[..|r|]
      && AllWhitespace(s[|r|..])
      && (r == [] || !IsWhitespace(r[|r| - 1]))
  {
    if s != [] && IsWhitespace(s[|s| - 1]) {
      TrimEndShape(s[..|s| - 1]);
      var r := TrimEnd(s[..|s| - 1]);
      assert s[|r|..] == s[..|s| - 1][|r|..] + [s[|s| - 1]];
    }
  }

  /** `String.prototype.trim`: the whitespace at both ends removed. */
  function Trim(s: string): (r: string)
    ensures |r| <= |s|
    ensures s != [] && !IsWhitespace(s[0]) && !IsWhitespace(s[|s| - 1]) ==> r == s
  {
    TrimEnd(TrimStart(s))
  }

  /** What `trim()` leaves: a slice of `s` that neither starts nor ends with
      whitespace, with only whitespace cut off on either side; a string
      without whitespace is kept whole and one of whitespace only vanishes. */
  lemma TrimShape(s: string)
    ensures var r := Trim(s);
      && (exists i :: 0 <= i <= |s| - |r| && r == s[i..i + |r|]
            && AllWhitespace(s[..i]) && AllWhitespace(s[i + |r|..]))
      && (r == [] || (!IsWhitespace(r[0]) && !IsWhitespace(r[|r| - 1])))
      && (NoWhitespace(s) ==> r == s)
      && (AllWhitespace(s) ==> r == [])
  {
    var i := TrimSlice(s);
    if NoWhitespace(s) {
      TrimNoWhitespace(s);
    }
    if AllWhitespace(s) {
      TrimAllWhitespace(s);
    }
  }

  /** The slice part of `TrimShape`: `i` is where the kept text starts. */
  lemma TrimSlice(s: string) returns (i: nat)
    ensures i + |Trim(s)| <= |s|
    ensures Trim(s) == s[i..i + |Trim(s)|]
    ensures AllWhitespace(s[..i]) && AllWhitespace(s[i + |Trim(s)|..])
    ensures Trim(s) == [] || (!IsWhitespace(Trim(s)[0]) && !IsWhitespace(Trim(s)[|Trim(s)| - 1]))
  {
    var t := TrimStart(s);
    var r := TrimEnd(t);
    TrimStartShape(s);
    TrimEndShape(t);
    i := |s| - |t|;
    assert r == s[i..i + |r|] by {
      assert t == s[i..];
      assert r == t[..|r|];
    }
    assert s[i + |r|..] == t[|r|..];
    if r != [] {
      assert r[0] == t[0];
    }
  }

  /** A string without whitespace is its own trim. */
  lemma TrimNoWhitespace(s: string)
    requires NoWhitespace(s)
    ensures Trim(s) == s
  {
    if s != [] {
      assert s[0] in s;
      assert s[|s| - 1] in s;
    }
  }

  /** A string of whitespace only trims to the empty string. */
  lemma TrimAllWhitespace(s: string)
    requires AllWhitespace(s)
    ensures Trim(s) == []
  {
    TrimStartShape(s);
  }

  /** Trimming twice is trimming once. */
  lemma TrimIdempotent(s: string)
    ensures Trim(Trim(s)) == Trim(s)
  {
    var r := Trim(s);
    TrimShape(s);
    TrimStartShape(r);
    TrimEndShape(r);
    if r != [] {
      assert TrimStart(r) == r;
      assert TrimEnd(r) == r;
    }
  }

  /** `s.split(sep)`: the pieces between occurrences of `sep`, in order. There
      is always at least one piece (`"".split(sep)` is `[""]`), no piece
      contains `sep`. */
  function Split(s: string, sep: char): (r: seq<string>)
    ensures |r| >= 1
    ensures forall i :: 0 <= i < |r| ==> sep !in r[i]
  {
    if s == [] then [""]
    else
      var rest := Split(s[1..], sep);
      if s[0] == sep then [""] + rest
      else [[s[0]] + rest[0]] + rest[1..]
  }

  /** Every character of a piece comes from the split string. */
  lemma {:induction false} SplitChars(s: string, sep: char)
    ensures forall i, c :: 0 <= i < |Split(s, sep)| && c in Split(s, sep)[i] ==> c in s
  {
    if s != [] {
      SplitChars(s[1..], sep);
      var rest := Split(s[1..], sep);
      var r := Split(s, sep);
      forall i, c | 0 <= i < |r| && c in r[i]
        ensures c in s
      {
        if s[0] == sep {
          assert r[i] == rest[i - 1];
        } else if i == 0 {
          assert r[0] == [s[0]] + rest[0];
        } else {
          assert r[i] == rest[i];
        }
        assert c == s[0] || c in s[1..];
        assert s == [s[0]] + s[1..];
      }
    }
  }

  /** `parts.join(sep)`: the inverse of `Split`. */
  function Join(parts: seq<string>, sep: char): string
  {
    if |parts| == 0 then ""
    else if |parts| == 1 then parts[0]
    else parts[0] + [sep] + Join(parts[1..], sep)
  }

  /** Joining the pieces again gives back the split string. */
  lemma {:induction false} JoinSplit(s: string, sep: char)
    ensures Join(Split(s, sep), sep) == s
  {
    if s != [] {
      JoinSplit(s[1..], sep);
      var rest := Split(s[1..], sep);
      if s[0] != sep {
        if |rest| > 1 {
          assert [[s[0]] + rest[0]] + rest[1..] == [[s[0]] + rest[0]] + rest[1..][0..];
          assert Join([[s[0]] + rest[0]] + rest[1..], sep)
              == ([s[0]] + rest[0]) + [sep] + Join(rest[1..], sep);
        }
      } else {
        assert ([""] + rest)[1..] == rest;
      }
    }
  }

  /** A string without the separator is one piece. */
  lemma {:induction false} SplitNoSeparator(s: string, sep: char)
    requires sep !in s
    ensures Split(s, sep) == [s]
  {
    if s != [] {
      SplitNoSeparator(s[1..], sep);
      assert [s[0]] + s[1..] == s;
    }
  }

  /** A separator between two strings splits them apart: the split of the
      whole is the split of the left part followed by that of the right. */
  lemma {:induction false} SplitAround(x: string, sep: char, y: string)
    ensures Split(x + [sep] + y, sep) == Split(x, sep) + Split(y, sep)
  {
    if x == [] {
      assert x + [sep] + y == [sep] + y;
      SplitCons(sep, y, sep);
    } else {
      var u := x[1..];
      var z := u + [sep] + y;
      assert x == [x[0]] + u;
      assert x + [sep] + y == [x[0]] + z;
      SplitAround(u, sep, y);
      var left := Split(u, sep);
      var right := Split(y, sep);
      SplitCons(x[0], z, sep);
      SplitCons(x[0], u, sep);
      if x[0] == sep {
        Associative([""], left, right);
      } else {
        ConsFirst([x[0]], left, right);
      }
    }
  }

  /** Concatenation is associative. */
  lemma Associative<T>(a: seq<T>, b: seq<T>, c: seq<T>)
    ensures a + (b + c) == (a + b) + c
  {
  }

  /** Extending the first of two concatenated piece lists by a prefix. */
  lemma ConsFirst(p: string, left: seq<string>, right: seq<string>)
    requires |left| >= 1
    ensures [p + (left + right)[0]] + (left + right)[1..] == ([p + left[0]] + left[1..]) + right
  {
    assert (left + right)[0] == left[0];
    assert (left + right)[1..] == left[1..] + right;
    Associative([p + left[0]], left[1..], right);
  }

  /** How the first character decides the split: a separator starts a new,
      empty piece; any other character joins the first piece. */
  lemma SplitCons(c: char, rest: string, sep: char)
    ensures c == sep ==> Split([c] + rest, sep) == [""] + Split(rest, sep)
    ensures c != sep ==>
      Split([c] + rest, sep) == [[c] + Split(rest, sep)[0]] + Split(rest, sep)[1..]
  {
    assert ([c] + rest)[0] == c && ([c] + rest)[1..] == rest;
  }

  /** Splitting a join of separator-free pieces gives back the pieces. */
  lemma {:induction false} SplitJoin(parts: seq<string>, sep: char)
    requires |parts| >= 1
    requires forall i :: 0 <= i < |parts| ==> sep !in parts[i]
    ensures Split(Join(parts, sep), sep) == parts
  {
    if |parts| == 1 {
      SplitNoSeparator(parts[0], sep);
    } else {
      SplitJoin(parts[1..], sep);
      SplitNoSeparator(parts[0], sep);
      SplitAround(parts[0], sep, Join(parts[1..], sep));
      assert [parts[0]] + parts[1..] == parts;
    }
  }

  /** `s.replace(/\s+/g, '|')`: every maximal run of whitespace becomes one
      `'|'`; every other character, including a `'|'` already present, is
      kept in place (see `CollapseLeavesNoWhitespace`). */
  function CollapseWhitespace(s: string): (r: string)
    ensures |r| <= |s|
    ensures r == [] <==> s == []
    decreases |s|
  {
    if s == [] then []
    else if IsWhitespace(s[0]) then "|" + CollapseWhitespace(TrimStart(s[1..]))
    else [s[0]] + CollapseWhitespace(s[1..])
  }

  /** The collapsed string contains no whitespace. */
  lemma {:induction false} CollapseLeavesNoWhitespace(s: string)
    ensures NoWhitespace(CollapseWhitespace(s))
    decreases |s|
  {
    if s != [] {
      var rest := if IsWhitespace(s[0]) then TrimStart(s[1..]) else s[1..];
      CollapseLeavesNoWhitespace(rest);
      var head := if IsWhitespace(s[0]) then '|' else s[0];
      assert CollapseWhitespace(s) == [head] + CollapseWhitespace(rest);
    }
  }

  /** A string without whitespace is left as it is. */
  lemma {:induction false} CollapseNoWhitespace(s: string)
    requires NoWhitespace(s)
    ensures CollapseWhitespace(s) == s
  {
    if s != [] {
      assert s[0] in s;
      CollapseNoWhitespace(s[1..]);
      assert [s[0]] + s[1..] == s;
    }
  }

  /** Collapsing distributes over a whitespace run between a part that does
      not end in whitespace and one that does not start with it. */
  lemma {:induction false} CollapseAround(x: string, w: string, y: string)
    requires w != [] && AllWhitespace(w)
    requires x == [] || !IsWhitespace(x[|x| - 1])
    requires y == [] || !IsWhitespace(y[0])
    ensures CollapseWhitespace(x + (w + y)) == CollapseWhitespace(x) + "|" + CollapseWhitespace(y)
    decreases |x|, 1
  {
    if x == [] {
      CollapseRunThen(w, y);
      assert x + (w + y) == w + y;
      assert CollapseWhitespace(x) + "|" + CollapseWhitespace(y) == "|" + CollapseWhitespace(y);
    } else if IsWhitespace(x[0]) {
      CollapseAroundFromRun(x, w, y);
    } else {
      CollapseAroundFromChar(x, w, y);
    }
  }

  /** `CollapseAround` when `x` starts with whitespace. */
  lemma {:induction false} CollapseAroundFromRun(x: string, w: string, y: string)
    requires w != [] && AllWhitespace(w)
    requires x != [] && IsWhitespace(x[0]) && !IsWhitespace(x[|x| - 1])
    requires y == [] || !IsWhitespace(y[0])
    ensures CollapseWhitespace(x + (w + y)) == CollapseWhitespace(x) + "|" + CollapseWhitespace(y)
    decreases |x|, 0
  {
    var t := TrimStart(x[1..]);
    SkipLeadingRun(x, w + y);
    assert |t| <= |x[1..]| < |x|;
    assert t != [] && !IsWhitespace(t[|t| - 1]);
    CollapseAround(t, w, y);
    AppendAround("|", CollapseWhitespace(t), "|", CollapseWhitespace(y));
  }

  /** Regrouping a concatenation of four parts. */
  lemma AppendAround<T>(a: seq<T>, b: seq<T>, m: seq<T>, c: seq<T>)
    ensures a + (b + m + c) == (a + b) + m + c
  {
  }

  /** `CollapseAround` when `x` starts with a character that is not whitespace. */
  lemma {:induction false} CollapseAroundFromChar(x: string, w: string, y: string)
    requires w != [] && AllWhitespace(w)
    requires x != [] && !IsWhitespace(x[0]) && !IsWhitespace(x[|x| - 1])
    requires y == [] || !IsWhitespace(y[0])
    ensures CollapseWhitespace(x + (w + y)) == CollapseWhitespace(x) + "|" + CollapseWhitespace(y)
    decreases |x|, 0
  {
    var u := x[1..];
    assert x == [x[0]] + u;
    assert x + (w + y) == [x[0]] + (u + (w + y));
    CollapseCons(x[0], u + (w + y));
    CollapseCons(x[0], u);
    assert u == [] || u[|u| - 1] == x[|x| - 1];
    CollapseAround(u, w, y);
    AppendAround([x[0]], CollapseWhitespace(u), "|", CollapseWhitespace(y));
  }

  /** A character that is not whitespace is kept in front of the collapse of
      what follows it. */
  lemma CollapseCons(c: char, rest: string)
    requires !IsWhitespace(c)
    ensures CollapseWhitespace([c] + rest) == [c] + CollapseWhitespace(rest)
  {
    assert ([c] + rest)[0] == c && ([c] + rest)[1..] == rest;
  }

  /** A whitespace run followed by a part that does not start with whitespace
      collapses to one `'|'` followed by that part, collapsed. */
  lemma CollapseRunThen(w: string, y: string)
    requires w != [] && AllWhitespace(w)
    requires y == [] || !IsWhitespace(y[0])
    ensures CollapseWhitespace(w + y) == "|" + CollapseWhitespace(y)
  {
    var z := w + y;
    assert z[0] == w[0] && z[1..] == w[1..] + y;
    assert AllWhitespace(w[1..]);
    TrimStartAllWhitespace(w[1..], y);
  }

  /** When `x` starts with whitespace but ends otherwise, the leading run of
      `x + rest` ends inside `x`. */
  lemma SkipLeadingRun(x: string, rest: string)
    requires x != [] && IsWhitespace(x[0]) && !IsWhitespace(x[|x| - 1])
    ensures TrimStart(x[1..]) != []
    ensures TrimStart(x[1..])[|TrimStart(x[1..])| - 1] == x[|x| - 1]
    ensures CollapseWhitespace(x + rest) == "|" + CollapseWhitespace(TrimStart(x[1..]) + rest)
    ensures CollapseWhitespace(x) == "|" + CollapseWhitespace(TrimStart(x[1..]))
  {
    var u := x[1..];
    var t := TrimStart(u);
    TrimStartShape(u);
    assert |x| >= 2;
    assert u[|u| - 1] == x[|x| - 1];
    assert t == u[|u| - |t|..];
    assert t[|t| - 1] == u[|u| - 1];
    var z := x + rest;
    assert z[0] == x[0] && z[1..] == u + rest;
    TrimStartAppend(u, rest);
  }

  /** Removing leading whitespace skips a whitespace prefix exactly. */
  lemma {:induction false} TrimStartAllWhitespace(w: string, y: string)
    requires AllWhitespace(w)
    requires y == [] || !IsWhitespace(y[0])
    ensures TrimStart(w + y) == y
  {
    if w != [] {
      assert (w + y)[0] == w[0] && (w + y)[1..] == w[1..] + y;
      TrimStartAllWhitespace(w[1..], y);
    } else {
      assert w + y == y;
    }
  }

  /** Leading whitespace that ends inside `a` is removed from `a` alone. */
  lemma {:induction false} TrimStartAppend(a: string, b: string)
    requires TrimStart(a) != []
    ensures TrimStart(a + b) == TrimStart(a) + b
  {
    assert a != [];
    assert (a + b)[0] == a[0];
    if IsWhitespace(a[0]) {
      assert (a + b)[1..] == a[1..] + b;
      TrimStartAppend(a[1..], b);
    }
  }

  /** ASCII `toLowerCase` of one character. */
  function LowerChar(c: char): (d: char)
    ensures 'A' <= c <= 'Z' ==> 'a' <= d <= 'z' && d as int - c as int == 32
    ensures !('A' <= c <= 'Z') ==> d == c
  {
    if 'A' <= c <= 'Z' then (c as int - 'A' as int + 'a' as int) as char else c
  }

  /** `s.toLowerCase()` on the ASCII letters: character by character. */
  function Lower(s: string): (r: string)
    ensures |r| == |s|
    ensures forall i :: 0 <= i < |s| ==> r[i] == LowerChar(s[i])
  {
    if s == [] then [] else [LowerChar(s[0])] + Lower(s[1..])
  }

  /** `Lower` applied to each string of a sequence. */
  function LowerAll(ss: seq<string>): (r: seq<string>)
    ensures |r| == |ss|
    ensures forall i :: 0 <= i < |ss| ==> r[i] == Lower(ss[i])
  {
    if ss == [] then [] else [Lower(ss[0])] + LowerAll(ss[1..])
  }

  /** Lower-casing commutes with leading-whitespace removal. */
  lemma {:induction false} TrimStartLower(s: string)
    ensures TrimStart(Lower(s)) == Lower(TrimStart(s))
  {
    if s != [] {
      assert Lower(s)[0] == LowerChar(s[0]);
      assert Lower(s)[1..] == Lower(s[1..]);
      LowerCharKeepsClass(s[0]);
      TrimStartLower(s[1..]);
    }
  }

  /** Lower-casing turns no character into whitespace or `'|'`, or out of them. */
  lemma LowerCharKeepsClass(c: char)
    ensures IsWhitespace(LowerChar(c)) <==> IsWhitespace(c)
    ensures LowerChar(c) == '|' <==> c == '|'
  {
  }

  /** Lower-casing commutes with collapsing, as no upper-case letter is
      whitespace or `'|'`. */
  lemma {:induction false} CollapseLower(s: string)
    ensures CollapseWhitespace(Lower(s)) == Lower(CollapseWhitespace(s))
    decreases |s|
  {
    if s != [] {
      var l := Lower(s);
      assert l[0] == LowerChar(s[0]);
      assert l[1..] == Lower(s[1..]);
      if IsWhitespace(s[0]) {
        TrimStartLower(s[1..]);
        CollapseLower(TrimStart(s[1..]));
        assert Lower("|" + CollapseWhitespace(TrimStart(s[1..])))
            == "|" + Lower(CollapseWhitespace(TrimStart(s[1..])));
      } else {
        CollapseLower(s[1..]);
        assert Lower([s[0]] + CollapseWhitespace(s[1..])) == [LowerChar(s[0])] + Lower(CollapseWhitespace(s[1..]));
      }
    }
  }

  /** Lower-casing commutes with splitting on `'|'`. */
  lemma {:induction false} SplitLower(s: string)
    ensures Split(Lower(s), '|') == LowerAll(Split(s, '|'))
  {
    if s != [] {
      var l := Lower(s);
      assert l[0] == LowerChar(s[0]);
      assert l[1..] == Lower(s[1..]);
      SplitLower(s[1..]);
      var rest := Split(s[1..], '|');
      if s[0] != '|' {
        assert Lower([s[0]] + rest[0]) == [LowerChar(s[0])] + Lower(rest[0]);
        assert LowerAll([[s[0]] + rest[0]] + rest[1..]) == [Lower([s[0]] + rest[0])] + LowerAll(rest)[1..];
      } else {
        assert LowerAll([""] + rest) == [""] + LowerAll(rest);
      }
    }
  }
}
