/** Trimming of text, as the standard library does it. */
module Texts {
  /** White space as the standard library's `trim` understands it. */
  predicate IsWhitespace(c: char) {
    || '\U{9}' <= c <= '\U{D}' || c == ' ' || c == '\U{85}' || c == '\U{A0}' || c == '\U{1680}'
    || '\U{2000}' <= c <= '\U{200A}' || c == '\U{2028}' || c == '\U{2029}' || c == '\U{202F}'
    || c == '\U{205F}' || c == '\U{3000}'
  }

  function TrimStart(s: string): string {
    if s != "" && IsWhitespace(s[0]) then TrimStart(s[1..]) else s
  }

  function TrimEnd(s: string): string {
    if s != "" && IsWhitespace(s[|s| - 1]) then TrimEnd(s[..|s| - 1]) else s
  }

  function Trim(s: string): string { TrimEnd(TrimStart(s)) }

  predicate Blank(s: string) { forall i :: 0 <= i < |s| ==> IsWhitespace(s[i]) }

  /** No white space at either end. */
  predicate Tight(s: string) { s == "" || (!IsWhitespace(s[0]) && !IsWhitespace(s[|s| - 1])) }

  lemma {:induction false} TrimStartBlank(a: string, s: string)
    requires Blank(a)
    ensures TrimStart(a + s) == TrimStart(s)
  {
    hide IsWhitespace;
    if a == "" {
      assert a + s == s;
    } else {
      TrimStartBlank(a[1..], s);
      assert (a + s)[1..] == a[1..] + s;
    }
  }

  lemma {:induction false} TrimEndBlank(s: string, b: string)
    requires Blank(b)
    ensures TrimEnd(s + b) == TrimEnd(s)
  {
    hide IsWhitespace;
    if b == "" {
      assert s + b == s;
    } else {
      TrimEndBlank(s, b[..|b| - 1]);
      assert (s + b)[..|s + b| - 1] == s + b[..|b| - 1];
    }
  }

  /** White space around a text is what trimming takes away, and all it takes away. */
  lemma TrimExactly(a: string, t: string, b: string)
    requires Blank(a) && Blank(b) && Tight(t)
    ensures Trim(a + t + b) == t
  {
    hide IsWhitespace;
    assert a + t + b == a + (t + b);
    TrimStartBlank(a, t + b);
    if t == "" {
      TrimStartBlank(b, "");
      assert t + b == b && b + "" == b;
    } else {
      TrimEndBlank(t, b);
    }
  }

  lemma {:induction false} TrimStartSplits(s: string) returns (a: string)
    ensures Blank(a) && s == a + TrimStart(s) && (TrimStart(s) == "" || !IsWhitespace(TrimStart(s)[0]))
  {
    hide IsWhitespace;
    a := "";
    if s != "" && IsWhitespace(s[0]) {
      var rest := TrimStartSplits(s[1..]);
      a := [s[0]] + rest;
    }
  }

  lemma {:induction false} TrimEndSplits(s: string) returns (b: string)
    requires s == "" || !IsWhitespace(s[0])
    ensures Blank(b) && s == TrimEnd(s) + b && Tight(TrimEnd(s))
  {
    hide IsWhitespace;
    b := "";
    if s != "" && IsWhitespace(s[|s| - 1]) {
      var rest := TrimEndSplits(s[..|s| - 1]);
      b := rest + [s[|s| - 1]];
      assert s == s[..|s| - 1] + [s[|s| - 1]];
    }
  }

  lemma TrimSplits(s: string) returns (a: string, b: string)
    ensures Blank(a) && Blank(b) && s == a + Trim(s) + b && Tight(Trim(s))
  {
    hide IsWhitespace, TrimStart, TrimEnd;
    a := TrimStartSplits(s);
    b := TrimEndSplits(TrimStart(s));
  }
}
