/**
 * The string operations every stage of the recommender applies to CSV
 * cells: Python's `str.strip()`, `str.split(",")`, `", ".join(...)`, the
 * case-insensitive "nan" test, the comma-separated genre parsers built on them, and Python's
 * code-point order on strings.
 */
module Text {
  import opened Collections

  /** Python's `str.isspace()` for one character. */
  predicate IsSpace(c: char)
  {
    || c == ' '
    || ('\t' <= c <= '\r')
    || ('\U{1c}' <= c <= '\U{1f}')
    || c == '\U{85}' || c == '\U{a0}' || c == '\U{1680}'
    || ('\U{2000}' <= c <= '\U{200a}')
    || c == '\U{2028}' || c == '\U{2029}' || c == '\U{202f}' || c == '\U{205f}' || c == '\U{3000}'
  }

  /** Python's `str.lstrip()`: the suffix left after the leading whitespace. */
  function TrimLeft(s: string): (r: string)
    ensures |r| <= |s| && r == s[|s| - |r|..]
    ensures forall i :: 0 <= i < |s| - |r| ==> IsSpace(s[i])
    ensures r == [] || !IsSpace(r[0])
  {
    if s != [] && IsSpace(s[0]) then TrimLeft(s[1..]) else s
  }

  /** Python's `str.rstrip()`: the prefix left before the trailing whitespace. */
  function TrimRight(s: string): (r: string)
    ensures |r| <= |s| && r == s[..|r|]
    ensures forall i :: |r| <= i < |s| ==> IsSpace(s[i])
    ensures r == [] || !IsSpace(r[|r| - 1])
  {
    if s != [] && IsSpace(s[|s| - 1]) then TrimRight(s[..|s| - 1]) else s
  }

  /** No whitespace at either end. */
  ghost predicate Stripped(t: string)
  {
    t == [] || (!IsSpace(t[0]) && !IsSpace(t[|t| - 1]))
  }

  ghost predicate Blank(s: string)
  {
    forall i :: 0 <= i < |s| ==> IsSpace(s[i])
  }

  /** Python's `str.strip()`. */
  function Strip(s: string): string
  {
    TrimRight(TrimLeft(s))
  }

  /** The stripped string has no whitespace at either end. */
  lemma StripEnds(s: string)
    ensures Stripped(Strip(s))
  {
  }

  /** Stripping adds no character: one missing from `s` is missing from `Strip(s)`. */
  lemma StripAvoids(s: string, c: char)
    requires c !in s
    ensures c !in Strip(s)
  {
    var l := TrimLeft(s);
    assert l == s[|s| - |l|..];
    assert Strip(s) == l[..|Strip(s)|];
  }

  /** The stripped string is empty exactly when `s` is all whitespace. */
  lemma StripBlank(s: string)
    ensures Strip(s) == [] <==> Blank(s)
  {
    var l := TrimLeft(s);
    if l != [] {
      assert !IsSpace(s[|s| - |l|]);
    }
  }

  lemma StripStripped(t: string)
    requires Stripped(t)
    ensures Strip(t) == t
  {
  }

  lemma StripLeadingSpace(t: string)
    ensures Strip([' '] + t) == Strip(t)
  {
    assert ([' '] + t)[1..] == t;
  }

  /** The first index of `c` in `s`, or `|s|` when it does not occur. */
  function IndexOf(s: string, c: char): (i: nat)
    ensures i <= |s|
    ensures i < |s| ==> s[i] == c
    ensures forall k :: 0 <= k < i ==> s[k] != c
  {
    if s == [] || s[0] == c then 0 else 1 + IndexOf(s[1..], c)
  }

  /** Python's `s.split(sep)` for a one-character separator. */
  function Split(s: string, sep: char): (r: seq<string>)
    ensures |r| >= 1
    ensures forall k :: 0 <= k < |r| ==> sep !in r[k]
    decreases |s|
  {
    var i := IndexOf(s, sep);
    if i == |s| then [s] else [s[..i]] + Split(s[i + 1..], sep)
  }

  /** Python's `sep.join(ts)`. */
  function Join(ts: seq<string>, sep: string): string
  {
    if |ts| == 0 then ""
    else if |ts| == 1 then ts[0]
    else ts[0] + sep + Join(ts[1..], sep)
  }

  /** Joining the pieces of a split with the separator gives back the original string. */
  lemma {:induction false} JoinSplit(s: string, sep: char)
    ensures Join(Split(s, sep), [sep]) == s
    decreases |s|
  {
    var i := IndexOf(s, sep);
    if i < |s| {
      var rest := Split(s[i + 1..], sep);
      JoinSplit(s[i + 1..], sep);
      assert Split(s, sep) == [s[..i]] + rest;
      assert ([s[..i]] + rest)[1..] == rest;
      assert s == s[..i] + [sep] + s[i + 1..];
    }
  }

  lemma {:induction false} IndexOfAfter(t: string, rest: string, c: char)
    requires c !in t
    ensures IndexOf(t + rest, c) == |t| + IndexOf(rest, c)
  {
    if t == [] {
      assert t + rest == rest;
    } else {
      assert t[0] in t && t[0] != c;
      assert t == [t[0]] + t[1..];
      assert (t + rest)[0] == t[0];
      assert (t + rest)[1..] == t[1..] + rest;
      IndexOfAfter(t[1..], rest, c);
    }
  }

  lemma SplitAfterPiece(t: string, u: string, sep: char)
    requires sep !in t
    ensures Split(t + [sep] + u, sep) == [t] + Split(u, sep)
  {
    var s := t + [sep] + u;
    IndexOfAfter(t, [sep] + u, sep);
    assert s == t + ([sep] + u);
    assert s[..|t|] == t;
    assert s[|t| + 1..] == u;
  }

  lemma {:induction false} SplitAfterSpace(u: string, sep: char)
    requires sep != ' '
    ensures Split([' '] + u, sep) == [[' '] + Split(u, sep)[0]] + Split(u, sep)[1..]
  {
    var s := [' '] + u;
    var j := IndexOf(u, sep);
    assert IndexOf(s, sep) == j + 1 by {
      assert s[1..] == u;
    }
    if j < |u| {
      assert s[..j + 1] == [' '] + u[..j];
      assert s[j + 2..] == u[j + 1..];
    }
  }

  /** Python's `s.lower() == "nan"`; only ASCII letters lower-case to `n` or `a`. */
  predicate IsNan(t: string)
  {
    |t| == 3 && Lower(t[0]) == 'n' && Lower(t[1]) == 'a' && Lower(t[2]) == 'n'
  }

  function Lower(c: char): char
  {
    if 'A' <= c <= 'Z' then (c as int + 32) as char else c
  }

  /** A token as both genre parsers leave it: stripped and non-blank. */
  ghost predicate Token(t: string)
  {
    t != [] && Stripped(t)
  }

  /**
   * `[g.strip() for g in pieces if g.strip()]`, also dropping every token
   * that is "nan" in any case when `dropNan` holds.
   */
  function CleanTokens(pieces: seq<string>, dropNan: bool): (r: seq<string>)
    ensures forall k :: 0 <= k < |r| ==> Kept(r[k], dropNan)
  {
    if pieces == [] then []
    else
      var rest := CleanTokens(pieces[1..], dropNan);
      var t := Strip(pieces[0]);
      if t != [] && !(dropNan && IsNan(t)) then
        StripEnds(pieces[0]);
        KeptAppend([t], rest, dropNan);
        [t] + rest
      else
        rest
  }

  lemma KeptAppend(a: seq<string>, b: seq<string>, dropNan: bool)
    requires forall k :: 0 <= k < |a| ==> Kept(a[k], dropNan)
    requires forall k :: 0 <= k < |b| ==> Kept(b[k], dropNan)
    ensures forall k :: 0 <= k < |a + b| ==> Kept((a + b)[k], dropNan)
  {
  }

  /** What the genre filter keeps: a token, and not "nan" when those are dropped. */
  ghost predicate Kept(t: string, dropNan: bool)
  {
    Token(t) && !(dropNan && IsNan(t))
  }

  /** `[x.strip() for x in xs]`. */
  function StripAll(xs: seq<string>): (r: seq<string>)
    ensures |r| == |xs|
    ensures forall i :: 0 <= i < |xs| ==> r[i] == Strip(xs[i])
  {
    seq(|xs|, i requires 0 <= i < |xs| => Strip(xs[i]))
  }

  /**
   * The comprehension read as the loop it is: one more piece appends its
   * stripped form exactly when the filter keeps it.
   */
  lemma {:induction false} CleanTokensSnoc(pieces: seq<string>, p: string, dropNan: bool)
    ensures CleanTokens(pieces + [p], dropNan) ==
      CleanTokens(pieces, dropNan) + (if Strip(p) != [] && !(dropNan && IsNan(Strip(p))) then [Strip(p)] else [])
  {
    if pieces != [] {
      assert (pieces + [p])[0] == pieces[0];
      assert (pieces + [p])[1..] == pieces[1..] + [p];
      CleanTokensSnoc(pieces[1..], p, dropNan);
    } else {
      assert pieces + [p] == [p];
    }
  }

  /** The kept tokens are stripped pieces, in the order of the pieces. */
  lemma {:induction false} CleanTokensSubseq(pieces: seq<string>, dropNan: bool)
    ensures IsSubseq(CleanTokens(pieces, dropNan), StripAll(pieces))
  {
    if pieces != [] {
      var q := pieces[..|pieces| - 1];
      var p := pieces[|pieces| - 1];
      var t := Strip(p);
      var c := CleanTokens(q, dropNan);
      var sq := StripAll(q);
      CleanTokensSubseq(q, dropNan);
      assert pieces == q + [p];
      var r := c + (if t != [] && !(dropNan && IsNan(t)) then [t] else []);
      assert CleanTokens(pieces, dropNan) == r by {
        CleanTokensSnoc(q, p, dropNan);
      }
      assert StripAll(pieces) == sq + [t] by {
        StripAllSnoc(q, p);
      }
      assert IsSubseq(r, sq + [t]) by {
        if t != [] && !(dropNan && IsNan(t)) {
          SubseqAppendBoth(c, sq, t);
        } else {
          assert r == c;
          SubseqAppendRight(c, sq, t);
        }
      }
    }
  }

  lemma StripAllSnoc(xs: seq<string>, x: string)
    ensures StripAll(xs + [x]) == StripAll(xs) + [Strip(x)]
  {
    var ys := xs + [x];
    assert forall i :: 0 <= i < |xs| ==> ys[i] == xs[i];
    assert ys[|xs|] == x;
  }

  /** No piece that strips to a non-blank token (and not to "nan" when those are dropped) is lost. */
  lemma {:induction false} CleanTokensCovers(pieces: seq<string>, dropNan: bool)
    ensures forall k :: 0 <= k < |pieces| && Strip(pieces[k]) != [] && !(dropNan && IsNan(Strip(pieces[k]))) ==>
      Strip(pieces[k]) in CleanTokens(pieces, dropNan)
  {
    if pieces != [] {
      var q := pieces[..|pieces| - 1];
      var p := pieces[|pieces| - 1];
      var t := Strip(p);
      var c := CleanTokens(q, dropNan);
      CleanTokensCovers(q, dropNan);
      assert pieces == q + [p];
      var r := c + (if t != [] && !(dropNan && IsNan(t)) then [t] else []);
      assert CleanTokens(pieces, dropNan) == r by {
        CleanTokensSnoc(q, p, dropNan);
      }
      forall k | 0 <= k < |pieces| && Strip(pieces[k]) != [] && !(dropNan && IsNan(Strip(pieces[k])))
        ensures Strip(pieces[k]) in r
      {
        if k < |q| {
          assert pieces[k] == q[k];
          assert Strip(q[k]) in c;
        } else {
          assert pieces[k] == p;
        }
      }
    }
  }

  lemma CleanTokensAvoid(pieces: seq<string>, dropNan: bool, c: char)
    requires forall k :: 0 <= k < |pieces| ==> c !in pieces[k]
    ensures forall k :: 0 <= k < |CleanTokens(pieces, dropNan)| ==> c !in CleanTokens(pieces, dropNan)[k]
  {
    var r := CleanTokens(pieces, dropNan);
    CleanTokensSubseq(pieces, dropNan);
    forall k | 0 <= k < |r|
      ensures c !in r[k]
    {
      var j := SubseqFrom(r, StripAll(pieces), k);
      StripAvoids(pieces[j], c);
    }
  }

  /** A comma-separated cell parsed into tokens: blank cells give none. */
  function ParseList(s: string, dropNan: bool): (r: seq<string>)
    ensures forall k :: 0 <= k < |r| ==> Token(r[k]) && ',' !in r[k] && !(dropNan && IsNan(r[k]))
    ensures Blank(s) ==> r == []
  {
    StripBlank(s);
    if Strip(s) == [] then []
    else
      CleanTokensAvoid(Split(s, ','), dropNan, ',');
      CleanTokens(Split(s, ','), dropNan)
  }

  /** Every piece of an all-whitespace string is all whitespace. */
  lemma {:induction false} SplitBlank(s: string, sep: char)
    requires Blank(s)
    ensures forall k :: 0 <= k < |Split(s, sep)| ==> Blank(Split(s, sep)[k])
    decreases |s|
  {
    var i := IndexOf(s, sep);
    if i < |s| {
      SplitBlank(s[i + 1..], sep);
      assert Split(s, sep) == [s[..i]] + Split(s[i + 1..], sep);
    }
  }

  /**
   * The parsed list is the cell's comma pieces, stripped, in order, with
   * every piece kept that strips to a non-blank token (and not to "nan" when
   * those are dropped).
   */
  lemma ParseListPieces(s: string, dropNan: bool)
    ensures IsSubseq(ParseList(s, dropNan), StripAll(Split(s, ',')))
    ensures forall k :: 0 <= k < |Split(s, ',')| && Strip(Split(s, ',')[k]) != [] && !(dropNan && IsNan(Strip(Split(s, ',')[k]))) ==>
      Strip(Split(s, ',')[k]) in ParseList(s, dropNan)
  {
    StripBlank(s);
    if Strip(s) == [] {
      SplitBlank(s, ',');
      forall k | 0 <= k < |Split(s, ',')|
        ensures Strip(Split(s, ',')[k]) == []
      {
        StripBlank(Split(s, ',')[k]);
      }
    } else {
      CleanTokensSubseq(Split(s, ','), dropNan);
      CleanTokensCovers(Split(s, ','), dropNan);
    }
  }

  lemma CleanTokensLeadingSpace(h: string, tail: seq<string>, dropNan: bool)
    ensures CleanTokens([[' '] + h] + tail, dropNan) == CleanTokens([h] + tail, dropNan)
  {
    var t := Strip(h);
    var rest := CleanTokens(tail, dropNan);
    StripLeadingSpace(h);
    assert ([[' '] + h] + tail)[0] == [' '] + h && ([[' '] + h] + tail)[1..] == tail;
    assert ([h] + tail)[0] == h && ([h] + tail)[1..] == tail;
    assert CleanTokens([h] + tail, dropNan) == (if t != [] && !(dropNan && IsNan(t)) then [t] + rest else rest);
  }

  lemma CleanTokensKeep(t: string, tail: seq<string>)
    requires Token(t) && !IsNan(t)
    ensures CleanTokens([t] + tail, true) == [t] + CleanTokens(tail, true)
  {
    StripStripped(t);
    assert ([t] + tail)[1..] == tail;
  }

  /** A string without the separator splits into itself. */
  lemma SplitWithoutSeparator(t: string, sep: char)
    requires sep !in t
    ensures Split(t, sep) == [t]
  {
    assert forall k :: 0 <= k < |t| ==> t[k] != sep;
  }

  lemma SplitOfJoinStep(ts: seq<string>)
    requires |ts| >= 2 && ',' !in ts[0]
    ensures var pieces := Split(Join(ts[1..], ", "), ',');
      Split(Join(ts, ", "), ',') == [ts[0]] + ([[' '] + pieces[0]] + pieces[1..])
  {
    var u := Join(ts[1..], ", ");
    calc {
      Split(Join(ts, ", "), ',');
      {
        assert Join(ts, ", ") == ts[0] + ", " + u;
        assert ts[0] + ", " + u == ts[0] + [','] + ([' '] + u);
      }
      Split(ts[0] + [','] + ([' '] + u), ',');
      { SplitAfterPiece(ts[0], [' '] + u, ','); }
      [ts[0]] + Split([' '] + u, ',');
      { SplitAfterSpace(u, ','); }
      [ts[0]] + ([[' '] + Split(u, ',')[0]] + Split(u, ',')[1..]);
    }
  }

  /**
   * Re-splitting a `", "`-join of clean tokens gives the tokens back: the
   * comparison engine's genre column round-trips through its string form.
   */
  lemma {:induction false} CleanTokensOfJoin(ts: seq<string>)
    requires forall k :: 0 <= k < |ts| ==> Token(ts[k]) && ',' !in ts[k] && !IsNan(ts[k])
    ensures CleanTokens(Split(Join(ts, ", "), ','), true) == ts
  {
    if |ts| == 0 {
      assert Split("", ',') == [""];
    } else if |ts| == 1 {
      SplitWithoutSeparator(ts[0], ',');
      CleanTokensKeep(ts[0], []);
      assert [ts[0]] + [] == ts;
    } else {
      var rest := ts[1..];
      var pieces := Split(Join(rest, ", "), ',');
      var spaced := [[' '] + pieces[0]] + pieces[1..];
      calc {
        CleanTokens(Split(Join(ts, ", "), ','), true);
        { SplitOfJoinStep(ts); }
        CleanTokens([ts[0]] + spaced, true);
        { CleanTokensKeep(ts[0], spaced); }
        [ts[0]] + CleanTokens(spaced, true);
        { CleanTokensLeadingSpace(pieces[0], pieces[1..], true); }
        [ts[0]] + CleanTokens([pieces[0]] + pieces[1..], true);
        { assert pieces == [pieces[0]] + pieces[1..]; }
        [ts[0]] + CleanTokens(pieces, true);
        { CleanTokensOfJoin(rest); }
        [ts[0]] + rest;
        ts;
      }
    }
  }

  /** Python's `<` on strings: lexicographic by code point. */
  predicate StrLess(a: string, b: string)
    decreases |a|
  {
    if a == [] then b != []
    else if b == [] then false
    else if a[0] != b[0] then a[0] < b[0]
    else StrLess(a[1..], b[1..])
  }

  lemma {:induction false} StrLessIrreflexive(a: string)
    ensures !StrLess(a, a)
    decreases |a|
  {
    if a != [] {
      StrLessIrreflexive(a[1..]);
    }
  }

  lemma {:induction false} StrLessTransitive(a: string, b: string, c: string)
    requires StrLess(a, b) && StrLess(b, c)
    ensures StrLess(a, c)
    decreases |a|
  {
    if a != [] && a[0] == b[0] && b[0] == c[0] {
      StrLessTransitive(a[1..], b[1..], c[1..]);
    }
  }

  lemma {:induction false} StrLessTotal(a: string, b: string)
    ensures a == b || StrLess(a, b) || StrLess(b, a)
    ensures !(StrLess(a, b) && StrLess(b, a))
    decreases |a|
  {
    if a != [] && b != [] && a[0] == b[0] {
      StrLessTotal(a[1..], b[1..]);
      if a[1..] == b[1..] {
        assert a == [a[0]] + a[1..] && b == [b[0]] + b[1..];
      }
    }
  }
}
