/** Whitespace and trimming as JavaScript's `String.prototype.trim` sees them.
    `adicionarTarefa` only asks whether the trimmed input is the empty string;
    the trimmed text itself is never stored. */
module Text {

  /** The characters `trim` removes: the ECMAScript WhiteSpace code points
      (tab, vertical tab, form feed, space, no-break space, the byte order mark
      and the Unicode space separators) and the LineTerminator code points
      (line feed, carriage return, line and paragraph separators). */
  predicate IsWs(c: char) {
    || c == '\t' || c == '\n' || c == '\U{000B}' || c == '\U{000C}' || c == '\r'
    || c == ' ' || c == '\U{00A0}' || c == '\U{1680}'
    || ('\U{2000}' <= c <= '\U{200A}')
    || c == '\U{2028}' || c == '\U{2029}' || c == '\U{202F}' || c == '\U{205F}'
    || c == '\U{3000}' || c == '\U{FEFF}'
  }

  /** Every character is whitespace (the empty string included). */
  predicate Blank(s: string) {
    forall i :: 0 <= i < |s| ==> IsWs(s[i])
  }

  /** Drops the leading whitespace: the result is a suffix of `s`, what was
      dropped is blank, and the result does not start with whitespace. */
  function TrimStart(s: string): (r: string)
    ensures |r| <= |s| && r == s[|s| - |r|..]
    ensures Blank(s[..|s| - |r|])
    ensures r == [] || !IsWs(r[0])
    decreases |s|
  {
    if |s| > 0 && IsWs(s[0]) then
      var r := TrimStart(s[1..]);
      assert s[..|s| - |r|] == [s[0]] + s[1..][..|s| - 1 - |r|];
      r
    else s
  }

  /** Drops the trailing whitespace: the result is a prefix of `s`, what was
      dropped is blank, and the result does not end with whitespace. */
  function TrimEnd(s: string): (r: string)
    ensures |r| <= |s| && r == s[..|r|]
    ensures Blank(s[|r|..])
    ensures r == [] || !IsWs(r[|r| - 1])
    decreases |s|
  {
    if |s| > 0 && IsWs(s[|s| - 1]) then
      var r := TrimEnd(s[..|s| - 1]);
      assert s[|r|..] == s[..|s| - 1][|r|..] + [s[|s| - 1]];
      r
    else s
  }

  /** `s.trim()`: whitespace removed from both ends, nothing else touched. */
  function Trim(s: string): (r: string)
    ensures r == [] || (!IsWs(r[0]) && !IsWs(r[|r| - 1]))
  {
    TrimEnd(TrimStart(s))
  }

  /** `r` is what is left of `s` at offset `a` once a blank prefix and a blank
      suffix are cut off. */
  predicate MiddleAfterBlankEnds(s: string, r: string, a: nat) {
    a + |r| <= |s| && r == s[a..a + |r|] && Blank(s[..a]) && Blank(s[a + |r|..])
  }

  /** What `trim` returns is the middle of `s`, left over once a blank prefix
      and a blank suffix are cut off. */
  lemma TrimCutsBlankEnds(s: string)
    ensures exists a: nat :: MiddleAfterBlankEnds(s, Trim(s), a)
  {
    var t := TrimStart(s);
    var u := TrimEnd(t);
    assert Trim(s) == u;
    var a := |s| - |t|;
    assert t == s[a..] && u == t[..|u|];
    assert u == s[a..a + |u|] by { assert s[a..a + |u|] == t[..|u|]; }
    assert Blank(s[a + |u|..]) by { assert s[a + |u|..] == t[|u|..]; }
    assert MiddleAfterBlankEnds(s, u, a);
  }

  /** A string made of a blank part and a rest is blank exactly when the rest is. */
  lemma BlankConcat(p: string, q: string)
    requires Blank(p)
    ensures Blank(p + q) <==> Blank(q)
  {
    if Blank(q) {
      forall i | 0 <= i < |p + q| ensures IsWs((p + q)[i]) {
        if i >= |p| { assert (p + q)[i] == q[i - |p|]; }
      }
    }
    if Blank(p + q) {
      forall i | 0 <= i < |q| ensures IsWs(q[i]) {
        assert q[i] == (p + q)[i + |p|];
      }
    }
  }

  /** Trimming the front leaves a string that is blank exactly when `s` is. */
  lemma TrimStartKeepsBlankness(s: string)
    ensures Blank(TrimStart(s)) <==> Blank(s)
  {
    var t := TrimStart(s);
    assert s == s[..|s| - |t|] + t;
    BlankConcat(s[..|s| - |t|], t);
  }

  /** Trimming the back leaves nothing exactly when the string is blank. */
  lemma TrimEndEmptyIffBlank(t: string)
    ensures TrimEnd(t) == "" <==> Blank(t)
  {
    var u := TrimEnd(t);
    assert u == [] ==> t == t[|u|..];
  }

  /** What the guard of `adicionarTarefa` tests: the trimmed input is empty
      exactly when every character of the input is whitespace. */
  lemma TrimEmptyIffBlank(s: string)
    ensures Trim(s) == "" <==> Blank(s)
  {
    TrimStartKeepsBlankness(s);
    TrimEndEmptyIffBlank(TrimStart(s));
  }
}
