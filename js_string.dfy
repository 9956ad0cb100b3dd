/**
 * The JavaScript string built-ins the pages rely on: `String.prototype.trim`,
 * `split(" ")`, `join(" ")` and `toUpperCase`, over strings as sequences of characters.
 */
module JsString {

  /** ECMAScript WhiteSpace and LineTerminator code points: exactly what `trim` strips. */
  predicate IsWhiteSpace(c: char)
  {
    c == '\t' || c == '\n' || c == '\U{000B}' || c == '\U{000C}' || c == '\r' || c == ' '
    || c == '\U{00A0}' || c == '\U{1680}' || ('\U{2000}' <= c && c <= '\U{200A}')
    || c == '\U{2028}' || c == '\U{2029}' || c == '\U{202F}' || c == '\U{205F}'
    || c == '\U{3000}' || c == '\U{FEFF}'
  }

  /** Every character of `s` at an index in `[lo, hi)` is white space. */
  ghost predicate WhiteSpaceBetween(s: string, lo: int, hi: int)
  {
    forall k :: 0 <= lo <= k < hi <= |s| ==> IsWhiteSpace(s[k])
  }

  /** The index where the run of white space starting at `from` ends. */
  function SkipWhiteSpace(s: string, from: nat): (j: nat)
    requires from <= |s|
    ensures from <= j <= |s| && WhiteSpaceBetween(s, from, j)
    ensures j < |s| ==> !IsWhiteSpace(s[j])
    decreases |s| - from
  {
    if from < |s| && IsWhiteSpace(s[from]) then SkipWhiteSpace(s, from + 1) else from
  }

  /** The index where the run of white space ending at `hi` (and not reaching below `lo`) starts. */
  function SkipWhiteSpaceBack(s: string, lo: nat, hi: nat): (j: nat)
    requires lo <= hi <= |s|
    ensures lo <= j <= hi && WhiteSpaceBetween(s, j, hi)
    ensures j > lo ==> !IsWhiteSpace(s[j - 1])
  {
    if lo < hi && IsWhiteSpace(s[hi - 1]) then SkipWhiteSpaceBack(s, lo, hi - 1) else hi
  }

  /**
   * `s.trim()`: the slice of `s` left after dropping its leading and trailing white space.
   * It is empty exactly when `s` is white space only, which is what `!s.trim()` tests.
   */
  function Trim(s: string): (r: string)
    ensures r == [] <==> WhiteSpaceBetween(s, 0, |s|)
    ensures r != [] ==> !IsWhiteSpace(r[0]) && !IsWhiteSpace(r[|r| - 1])
    ensures exists i :: 0 <= i <= |s| - |r| && r == s[i..i + |r|]
                        && WhiteSpaceBetween(s, 0, i) && WhiteSpaceBetween(s, i + |r|, |s|)
  {
    var i := SkipWhiteSpace(s, 0);
    var j := SkipWhiteSpaceBack(s, i, |s|);
    assert WhiteSpaceBetween(s, 0, |s|) ==> i == |s|;
    assert i < j ==> s[i..j][0] == s[i] && s[i..j][j - i - 1] == s[j - 1];
    s[i..j]
  }

  lemma TrimIdempotent(s: string)
    ensures Trim(Trim(s)) == Trim(s)
  {
    var r := Trim(s);
    assert SkipWhiteSpace(r, 0) == 0;
    assert SkipWhiteSpaceBack(r, 0, |r|) == |r|;
    assert r[0..|r|] == r;
  }

  /** `c.toUpperCase()` for a single character; only ASCII letters are mapped. */
  function ToUpperCase(c: char): (u: char)
    ensures 'a' <= c <= 'z' ==> 'A' <= u <= 'Z' && u as int - c as int == 'A' as int - 'a' as int
    ensures !('a' <= c <= 'z') ==> u == c
    ensures !('a' <= u <= 'z')
  {
    if 'a' <= c <= 'z' then (c as int - 32) as char else c
  }

  /** Upper-casing is idempotent and maps a space, and only a space, to a space. */
  lemma ToUpperCaseFacts(c: char)
    ensures ToUpperCase(ToUpperCase(c)) == ToUpperCase(c)
    ensures ToUpperCase(c) == ' ' <==> c == ' '
  {
    var u := ToUpperCase(c);
    assert !('a' <= u <= 'z');
  }

  /** `s.toUpperCase()`: every character upper-cased, length kept. */
  function UpperAll(s: string): (r: string)
    ensures |r| == |s| && forall k :: 0 <= k < |s| ==> r[k] == ToUpperCase(s[k])
  {
    if s == [] then [] else [ToUpperCase(s[0])] + UpperAll(s[1..])
  }

  /**
   * `s.split(" ")`: the pieces between single spaces, in order. There is always at
   * least one piece (the empty string splits into `[""]`) and no piece holds a space.
   */
  function SplitOnSpace(s: string): (ws: seq<string>)
    ensures |ws| >= 1
    ensures forall i :: 0 <= i < |ws| ==> ' ' !in ws[i]
  {
    if s == [] then [""]
    else if s[0] == ' ' then [""] + SplitOnSpace(s[1..])
    else
      var rest := SplitOnSpace(s[1..]);
      [[s[0]] + rest[0]] + rest[1..]
  }

  /** `ws.join(" ")`. */
  function JoinWithSpace(ws: seq<string>): string
  {
    if |ws| == 0 then ""
    else if |ws| == 1 then ws[0]
    else ws[0] + " " + JoinWithSpace(ws[1..])
  }

  /** Prefixing a character to the first piece prefixes it to the joined string. */
  lemma JoinConsChar(c: char, w: string, ws: seq<string>)
    ensures JoinWithSpace([[c] + w] + ws) == [c] + JoinWithSpace([w] + ws)
  {
    if |ws| > 0 {
      assert ([[c] + w] + ws)[1..] == ws;
      assert ([w] + ws)[1..] == ws;
    }
  }

  /** Joining the pieces of a split gives back the original string. */
  lemma {:induction false} SplitJoin(s: string)
    ensures JoinWithSpace(SplitOnSpace(s)) == s
  {
    if s == [] {
    } else if s[0] == ' ' {
      var rest := SplitOnSpace(s[1..]);
      SplitJoin(s[1..]);
      assert ([""] + rest)[1..] == rest;
      assert s == " " + s[1..];
    } else {
      var rest := SplitOnSpace(s[1..]);
      SplitJoin(s[1..]);
      JoinConsChar(s[0], rest[0], rest[1..]);
      assert [rest[0]] + rest[1..] == rest;
      assert s == [s[0]] + s[1..];
    }
  }

  /** A space-free string splits into itself alone. */
  lemma {:induction false} SplitSpaceFree(w: string)
    requires ' ' !in w
    ensures SplitOnSpace(w) == [w]
  {
    if w != [] {
      SplitSpaceFree(w[1..]);
      assert [w[0]] + w[1..] == w;
    }
  }

  /** A space-free piece followed by a space and more text splits off as the first piece. */
  lemma {:induction false} SplitAfterPiece(w: string, t: string)
    requires ' ' !in w
    ensures SplitOnSpace(w + " " + t) == [w] + SplitOnSpace(t)
  {
    if w == [] {
      assert w + " " + t == [' '] + t;
      assert (w + " " + t)[1..] == t;
    } else {
      SplitAfterPiece(w[1..], t);
      assert (w + " " + t)[1..] == w[1..] + " " + t;
      assert [w[0]] + w[1..] == w;
    }
  }

  /** Splitting the join of space-free pieces gives the pieces back. */
  lemma {:induction false} JoinSplit(ws: seq<string>)
    requires |ws| >= 1
    requires forall i :: 0 <= i < |ws| ==> ' ' !in ws[i]
    ensures SplitOnSpace(JoinWithSpace(ws)) == ws
  {
    if |ws| == 1 {
      SplitSpaceFree(ws[0]);
    } else {
      JoinSplit(ws[1..]);
      SplitAfterPiece(ws[0], JoinWithSpace(ws[1..]));
      assert [ws[0]] + ws[1..] == ws;
    }
  }
}
