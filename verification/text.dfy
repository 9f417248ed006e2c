/**
 The JavaScript string primitives the receipt code relies on: `trim`,
 `split` on a single character, and the two pieces of a split the code reads
 (`[0]` and `pop()`).
 */
module Text {

  /** The characters `String.prototype.trim` removes: ECMAScript WhiteSpace
      (tab, vertical tab, form feed, space, no-break space, byte-order mark
      and the other space separators) and LineTerminator. */
  predicate IsJsWhitespace(c: char) {
    || c == '\t' || c == '\n' || c == '\U{B}' || c == '\U{C}' || c == '\r'
    || c == ' ' || c == '\U{A0}' || c == '\U{1680}'
    || ('\U{2000}' <= c <= '\U{200A}')
    || c == '\U{2028}' || c == '\U{2029}' || c == '\U{202F}' || c == '\U{205F}'
    || c == '\U{3000}' || c == '\U{FEFF}'
  }

  /** Drops leading whitespace: the result is the suffix of `s` that starts at
      its first non-whitespace character. */
  function TrimStart(s: string): (r: string)
    ensures |r| <= |s| && r == s[|s| - |r|..]
    ensures forall k :: 0 <= k < |s| - |r| ==> IsJsWhitespace(s[k])
    ensures r == [] || !IsJsWhitespace(r[0])
  {
    if |s| > 0 && IsJsWhitespace(s[0]) then TrimStart(s[1..]) else s
  }

  /** Drops trailing whitespace: the result is the prefix of `s` that ends at
      its last non-whitespace character. */
  function TrimEnd(s: string): (r: string)
    ensures |r| <= |s| && r == s[..|r|]
    ensures forall k :: |r| <= k < |s| ==> IsJsWhitespace(s[k])
    ensures r == [] || !IsJsWhitespace(r[|r| - 1])
  {
    if |s| > 0 && IsJsWhitespace(s[|s| - 1]) then TrimEnd(s[..|s| - 1]) else s
  }

  /** `s.trim()`: neither end of the result is whitespace, and only whitespace
      was removed on either side. */
  function Trim(s: string): (r: string)
    ensures |r| <= |s|
    ensures r == [] || (!IsJsWhitespace(r[0]) && !IsJsWhitespace(r[|r| - 1]))
    ensures exists i :: TrimmedAt(s, r, i)
  {
    var u := TrimStart(s);
    var r := TrimEnd(u);
    TrimStartThenEnd(s, u, r);
    r
  }

  lemma TrimStartThenEnd(s: string, u: string, r: string)
    requires |u| <= |s| && u == s[|s| - |u|..]
    requires forall k :: 0 <= k < |s| - |u| ==> IsJsWhitespace(s[k])
    requires |r| <= |u| && r == u[..|r|]
    requires forall k :: |r| <= k < |u| ==> IsJsWhitespace(u[k])
    ensures TrimmedAt(s, r, |s| - |u|)
  {
    var i := |s| - |u|;
    assert r == s[i..i + |r|];
    forall k | i + |r| <= k < |s| ensures IsJsWhitespace(s[k]) {
      assert s[k] == u[k - i];
    }
  }

  /** `r` is the slice of `s` starting at `i`, and everything of `s` before
      and after that slice is whitespace. */
  predicate TrimmedAt(s: string, r: string, i: int) {
    && 0 <= i <= |s| - |r| && r == s[i..i + |r|]
    && (forall k :: 0 <= k < i ==> IsJsWhitespace(s[k]))
    && (forall k :: i + |r| <= k < |s| ==> IsJsWhitespace(s[k]))
  }

  lemma {:induction false} TrimStartAppendWhitespace(s: string, c: char)
    requires IsJsWhitespace(c)
    ensures TrimStart(s + [c]) == if TrimStart(s) == [] then [] else TrimStart(s) + [c]
    decreases |s|
  {
    if |s| == 0 {
      assert s + [c] == [c];
      assert TrimStart([c]) == TrimStart([c][1..]);
      assert [c][1..] == [];
    } else {
      assert (s + [c])[0] == s[0];
      if IsJsWhitespace(s[0]) {
        assert (s + [c])[1..] == s[1..] + [c];
        TrimStartAppendWhitespace(s[1..], c);
      }
    }
  }

  /** Whitespace added on either side disappears again under `trim`. */
  lemma {:induction false} TrimIgnoresSurroundingWhitespace(s: string, c: char, d: char)
    requires IsJsWhitespace(c) && IsJsWhitespace(d)
    ensures Trim([c] + s + [d]) == Trim(s)
  {
    var t := [c] + s + [d];
    assert t[1..] == s + [d];
    assert TrimStart(t) == TrimStart(s + [d]);
    TrimStartAppendWhitespace(s, d);
    if TrimStart(s) != [] {
      var u := TrimStart(s) + [d];
      assert u[..|u| - 1] == TrimStart(s);
    }
  }

  /** Trimming an already trimmed string changes nothing. */
  lemma TrimIdempotent(s: string)
    ensures Trim(Trim(s)) == Trim(s)
  {
    var r := Trim(s);
    if r != [] {
      assert !IsJsWhitespace(r[0]);
      assert TrimStart(r) == r;
      assert !IsJsWhitespace(r[|r| - 1]);
    }
  }

  /** The inverse of `Split`: the pieces glued back together with `sep`. */
  function Join(pieces: seq<string>, sep: char): string
    requires |pieces| > 0
  {
    if |pieces| == 1 then pieces[0] else pieces[0] + [sep] + Join(pieces[1..], sep)
  }

  /** `s.split(sep)` for a one-character separator: at least one piece, no
      piece contains the separator, and joining the pieces gives back `s`. */
  function Split(s: string, sep: char): (pieces: seq<string>)
    ensures |pieces| > 0
    ensures Join(pieces, sep) == s
    ensures forall k :: 0 <= k < |pieces| ==> sep !in pieces[k]
    decreases |s|
  {
    if |s| == 0 then [""]
    else
      var rest := Split(s[1..], sep);
      if s[0] == sep then
        var r := [""] + rest;
        assert r[1..] == rest;
        r
      else
        var r := [[s[0]] + rest[0]] + rest[1..];
        assert |r| > 1 ==> r[1..] == rest[1..];
        r
  }

  lemma {:induction false} JoinEndsWithLast(pieces: seq<string>, sep: char)
    requires |pieces| > 0
    ensures var j := Join(pieces, sep); var p := pieces[|pieces| - 1];
      |p| <= |j| && j[|j| - |p|..] == p && (|pieces| == 1 || (|p| < |j| && j[|j| - |p| - 1] == sep))
    decreases |pieces|
  {
    if |pieces| > 1 {
      JoinEndsWithLast(pieces[1..], sep);
      var j := Join(pieces, sep);
      var t := Join(pieces[1..], sep);
      assert j == pieces[0] + [sep] + t;
      var p := pieces[|pieces| - 1];
      assert p == pieces[1..][|pieces[1..]| - 1];
      if |pieces| == 2 {
        assert t == p;
      }
      assert j[|j| - |t|..] == t;
    }
  }

  /** `s.split(sep)[0]`: the text before the first `sep`, or all of `s` when
      `sep` does not occur. */
  function BeforeFirst(s: string, sep: char): (r: string)
    ensures |r| <= |s| && r == s[..|r|]
    ensures sep !in r
    ensures |r| == |s| || s[|r|] == sep
  {
    var pieces := Split(s, sep);
    assert |pieces| > 1 ==> Join(pieces, sep) == pieces[0] + [sep] + Join(pieces[1..], sep);
    pieces[0]
  }

  /** `s.split(sep).pop()`: the text after the last `sep`, or all of `s` when
      `sep` does not occur. */
  function AfterLast(s: string, sep: char): (r: string)
    ensures |r| <= |s| && r == s[|s| - |r|..]
    ensures sep !in r
    ensures |r| == |s| || s[|s| - |r| - 1] == sep
  {
    var pieces := Split(s, sep);
    JoinEndsWithLast(pieces, sep);
    pieces[|pieces| - 1]
  }

  /** Without the separator there is nothing to split: both ends are `s`. */
  lemma NoSeparatorWholeString(s: string, sep: char)
    requires sep !in s
    ensures BeforeFirst(s, sep) == s && AfterLast(s, sep) == s
  {
  }
}
