/** The string helpers of the standard library that the handlers use. */
module Text {
  /** Unicode white space. */
  predicate IsWhite(c: char) {
    || '\t' <= c <= '\r' || c == ' ' || c == '\U{85}' || c == '\U{A0}' || c == '\U{1680}'
    || '\U{2000}' <= c <= '\U{200A}' || c == '\U{2028}' || c == '\U{2029}' || c == '\U{202F}' || c == '\U{205F}'
    || c == '\U{3000}'
  }

  lemma WhiteOrNot(c: char)
    ensures c in " \t\r\n" ==> IsWhite(c)
    ensures '!' <= c <= '~' ==> !IsWhite(c)
  {
  }

  function TrimSpaces(s: string): string {
    if s == [] then s
    else if IsWhite(s[0]) then TrimSpaces(s[1..])
    else if IsWhite(s[|s| - 1]) then TrimSpaces(s[..|s| - 1])
    else s
  }

  predicate EndsTrimmed(s: string) {
    s != [] && !IsWhite(s[0]) && !IsWhite(s[|s| - 1])
  }

  predicate White(s: string) {
    forall i :: 0 <= i < |s| ==> IsWhite(s[i])
  }

  /** White space around a trimmed text is all that trimming removes. */
  lemma {:induction false} TrimPadded(left: string, s: string, right: string)
    requires White(left) && White(right) && EndsTrimmed(s)
    ensures TrimSpaces(left + s + right) == s
    decreases |left| + |right|
  {
    hide IsWhite;
    var all := left + s + right;
    if left != [] {
      assert all[1..] == left[1..] + s + right;
      TrimPadded(left[1..], s, right);
    } else if right != [] {
      assert all[|all| - 1] == right[|right| - 1] && all[0] == s[0];
      assert all[..|all| - 1] == left + s + right[..|right| - 1];
      TrimPadded(left, s, right[..|right| - 1]);
    } else {
      assert all == s;
    }
  }

  lemma {:induction false} TrimWhite(s: string)
    requires White(s)
    ensures TrimSpaces(s) == ""
  {
    hide IsWhite;
    if s != [] {
      TrimWhite(s[1..]);
    }
  }

  /** Every text is white space around its trimmed text, which has none at its ends. */
  lemma {:induction false} TrimDecomposes(s: string) returns (left: string, right: string)
    ensures White(left) && White(right) && s == left + TrimSpaces(s) + right
    ensures TrimSpaces(s) == "" || EndsTrimmed(TrimSpaces(s))
    decreases |s|
  {
    hide IsWhite;
    left, right := "", "";
    if s != [] {
      if IsWhite(s[0]) {
        left, right := TrimDecomposes(s[1..]);
        left := [s[0]] + left;
        assert s == [s[0]] + s[1..];
      } else if IsWhite(s[|s| - 1]) {
        left, right := TrimDecomposes(s[..|s| - 1]);
        right := right + [s[|s| - 1]];
        assert s == s[..|s| - 1] + [s[|s| - 1]];
      }
    }
  }

  lemma TrimLine(s: string)
    requires EndsTrimmed(s)
    ensures TrimSpaces(s + "\n") == s
  {
    var line := s + "\n";
    assert line[..|line| - 1] == s;
    assert line[0] == s[0];
  }

  predicate HasSuffix(s: string, suffix: string) {
    |suffix| <= |s| && s[|s| - |suffix|..] == suffix
  }
}
