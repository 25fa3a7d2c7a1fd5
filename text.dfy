/**
 * The two string operations the catalog parsers start with:
 * `text.split("\n")` and `line.trim()`, with JavaScript's semantics.
 */
module JsText {

  /** The characters `String.prototype.trim` removes: ECMAScript WhiteSpace
      (tab, vertical tab, form feed, space, no-break space, byte order mark and
      the space separators of category Zs) and LineTerminator (LF, CR, LS, PS). */
  predicate IsJsSpace(c: char)
  {
    || c == '\t' || c == '\n' || c == '\U{B}' || c == '\U{C}' || c == '\r' || c == ' '
    || c == '\U{A0}' || c == '\U{1680}' || ('\U{2000}' <= c <= '\U{200A}')
    || c == '\U{2028}' || c == '\U{2029}' || c == '\U{202F}' || c == '\U{205F}'
    || c == '\U{3000}' || c == '\U{FEFF}'
  }

  predicate AllSpace(s: string)
  {
    forall k :: 0 <= k < |s| ==> IsJsSpace(s[k])
  }

  /** `s.trimStart()`: drops the leading white space. */
  function TrimStart(s: string): string
  {
    if s != [] && IsJsSpace(s[0]) then TrimStart(s[1..]) else s
  }

  /** `s.trimEnd()`: drops the trailing white space. */
  function TrimEnd(s: string): string
  {
    if s != [] && IsJsSpace(s[|s| - 1]) then TrimEnd(s[..|s| - 1]) else s
  }

  /** `s.trim()`. */
  function Trim(s: string): string
  {
    TrimEnd(TrimStart(s))
  }

  /** `TrimStart` keeps the suffix of `s` that starts at its first non-space
      character, and everything it drops is white space. */
  lemma {:induction false} TrimStartSpec(s: string)
    ensures var r := TrimStart(s);
      && |r| <= |s| && r == s[|s| - |r|..]
      && (r == [] || !IsJsSpace(r[0]))
      && AllSpace(s[..|s| - |r|])
  {
    if s != [] && IsJsSpace(s[0]) {
      TrimStartSpec(s[1..]);
      var r := TrimStart(s);
      assert s[1..][|s| - 1 - |r|..] == s[|s| - |r|..];
      assert forall k :: 1 <= k < |s| - |r| ==> s[k] == s[1..][..|s| - 1 - |r|][k - 1];
    }
  }

  /** `TrimEnd` keeps the prefix of `s` that ends at its last non-space
      character, and everything it drops is white space. */
  lemma {:induction false} TrimEndSpec(s: string)
    ensures var r := TrimEnd(s);
      && |r| <= |s| && r == s[..|r|]
      && (r == [] || !IsJsSpace(r[|r| - 1]))
      && AllSpace(s[|r|..])
  {
    if s != [] && IsJsSpace(s[|s| - 1]) {
      var init := s[..|s| - 1];
      TrimEndSpec(init);
      var r := TrimEnd(s);
      assert init[..|r|] == s[..|r|];
      assert forall k :: |r| <= k < |s| - 1 ==> s[k] == init[|r|..][k - |r|];
    }
  }

  /** `trim` keeps one contiguous slice of `s` with no white space at either
      end, and what it drops before and after that slice is all white space;
      it gives the empty string exactly for all-white-space input. */
  lemma TrimSpec(s: string)
    ensures var r := Trim(s);
      && (r == [] || (!IsJsSpace(r[0]) && !IsJsSpace(r[|r| - 1])))
      && (r == [] <==> AllSpace(s))
      && |TrimStart(s)| <= |s|
      && var i := |s| - |TrimStart(s)|;
         && i + |r| <= |s| && r == s[i..i + |r|]
         && AllSpace(s[..i]) && AllSpace(s[i + |r|..])
  {
    var t := TrimStart(s);
    TrimStartSpec(s);
    TrimEndSpec(t);
    var r := TrimEnd(t);
    var a := |s| - |t|;
    assert s[a..] == t;
    assert r == s[a..a + |r|];
    assert s[a + |r|..] == t[|r|..];
    if r != [] {
      assert r[0] == t[0];
    }
    if r == [] {
      assert t == [] && a == |s|;
      assert s == s[..a];
    }
  }

  /** Trimming a trimmed string changes nothing. */
  lemma TrimIdempotent(s: string)
    ensures Trim(Trim(s)) == Trim(s)
  {
    var r := Trim(s);
    TrimSpec(s);
    if r != [] {
      assert TrimStart(r) == r;
      assert TrimEnd(r) == r;
    }
  }

  /** `s.split("\n")`: the pieces between line feeds, including the empty
      piece before a leading and after a trailing line feed; never empty. */
  function SplitLines(s: string): (r: seq<string>)
    ensures |r| >= 1
    ensures forall k :: 0 <= k < |r| ==> '\n' !in r[k]
  {
    if s == [] then [""]
    else
      var rest := SplitLines(s[1..]);
      if s[0] == '\n' then [""] + rest
      else [[s[0]] + rest[0]] + rest[1..]
  }

  /** `pieces.join("\n")`, the inverse of `SplitLines`. */
  function JoinLines(pieces: seq<string>): string
  {
    if pieces == [] then ""
    else if |pieces| == 1 then pieces[0]
    else pieces[0] + "\n" + JoinLines(pieces[1..])
  }

  /** Joining the pieces back with line feeds gives the text back. */
  lemma {:induction false} JoinSplit(s: string)
    ensures JoinLines(SplitLines(s)) == s
  {
    if s != [] {
      var rest := SplitLines(s[1..]);
      JoinSplit(s[1..]);
      if s[0] == '\n' {
        assert SplitLines(s)[1..] == rest;
      } else {
        var r := SplitLines(s);
        assert r[1..] == rest[1..];
        if |rest| == 1 {
          assert JoinLines(r) == [s[0]] + rest[0];
        } else {
          assert JoinLines(r) == [s[0]] + rest[0] + "\n" + JoinLines(rest[1..]);
        }
      }
    }
  }

  /** Splitting joined pieces gives the pieces back, provided no piece
      contains a line feed. */
  lemma {:induction false} SplitJoin(pieces: seq<string>)
    requires |pieces| >= 1
    requires forall k :: 0 <= k < |pieces| ==> '\n' !in pieces[k]
    ensures SplitLines(JoinLines(pieces)) == pieces
  {
    if |pieces| == 1 {
      SplitPiece(pieces[0], []);
    } else {
      SplitJoin(pieces[1..]);
      SplitPiece(pieces[0], pieces[1..]);
    }
  }

  /** A piece without line feeds in front of a split extends its first piece. */
  lemma {:induction false} SplitPiece(p: string, tail: seq<string>)
    requires '\n' !in p
    requires tail == [] || (|tail| >= 1 && SplitLines(JoinLines(tail)) == tail)
    ensures tail == [] ==> SplitLines(p) == [p]
    ensures tail != [] ==> SplitLines(p + "\n" + JoinLines(tail)) == [p] + tail
  {
    if p == [] {
      if tail != [] {
        assert p + "\n" + JoinLines(tail) == "\n" + JoinLines(tail);
        assert ("\n" + JoinLines(tail))[1..] == JoinLines(tail);
      }
    } else {
      assert p[0] in p && p == [p[0]] + p[1..];
      assert forall c :: c in p[1..] ==> c in p;
      SplitPiece(p[1..], tail);
      if tail == [] {
        assert SplitLines(p[1..]) == [p[1..]];
      } else {
        var s := p + "\n" + JoinLines(tail);
        assert s[1..] == p[1..] + "\n" + JoinLines(tail);
        assert [p[0]] + p[1..] == p;
      }
    }
  }

  /** A trailing line feed adds exactly one empty piece at the end. */
  lemma {:induction false} SplitTrailingNewline(s: string)
    ensures SplitLines(s + "\n") == SplitLines(s) + [""]
  {
    if s == [] {
      assert SplitLines("\n") == [""] + SplitLines("");
    } else {
      SplitTrailingNewline(s[1..]);
      assert (s + "\n")[1..] == s[1..] + "\n";
    }
  }
}
