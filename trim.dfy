/** ECMAScript's String.prototype.trim over Dafny strings (sequences of Unicode scalar values). */
module JsStrings {

  /** The code points trim removes: the WhiteSpace and LineTerminator productions of ECMAScript
      (TAB, LF, VT, FF, CR, the Unicode space separators, LS, PS and ZWNBSP). */
  predicate IsWhitespace(c: char) {
    c == '\t' || c == '\n' || c == '\U{B}' || c == '\U{C}' || c == '\r' || c == ' '
    || c == '\U{A0}' || c == '\U{1680}'
    || c == '\U{2000}' || c == '\U{2001}' || c == '\U{2002}' || c == '\U{2003}'
    || c == '\U{2004}' || c == '\U{2005}' || c == '\U{2006}' || c == '\U{2007}'
    || c == '\U{2008}' || c == '\U{2009}' || c == '\U{200A}'
    || c == '\U{2028}' || c == '\U{2029}' || c == '\U{202F}' || c == '\U{205F}'
    || c == '\U{3000}' || c == '\U{FEFF}'
  }

  predicate AllWhitespace(s: string) {
    forall i :: 0 <= i < |s| ==> IsWhitespace(s[i])
  }

  /** Drops the leading whitespace: what is kept is a suffix that does not start with
      whitespace. */
  function TrimStart(s: string): (r: string)
    ensures |r| <= |s| && r == s[|s| - |r|..]
    ensures r == [] || !IsWhitespace(r[0])
  {
    if s != [] && IsWhitespace(s[0]) then TrimStart(s[1..]) else s
  }

  /** What `TrimStart` drops is all whitespace. */
  lemma {:induction false} TrimStartDropsWhitespace(s: string)
    ensures AllWhitespace(s[..|s| - |TrimStart(s)|])
  {
    if s != [] && IsWhitespace(s[0]) {
      TrimStartDropsWhitespace(s[1..]);
      var d := |s| - |TrimStart(s)|;
      assert s[..d] == [s[0]] + s[1..][..d - 1];
    }
  }

  /** Drops the trailing whitespace: what is kept is a prefix that does not end with
      whitespace. */
  function TrimEnd(s: string): (r: string)
    ensures |r| <= |s| && r == s[..|r|]
    ensures r == [] || !IsWhitespace(r[|r| - 1])
  {
    if s != [] && IsWhitespace(s[|s| - 1]) then TrimEnd(s[..|s| - 1]) else s
  }

  /** What `TrimEnd` drops is all whitespace. */
  lemma {:induction false} TrimEndDropsWhitespace(s: string)
    ensures AllWhitespace(s[|TrimEnd(s)|..])
  {
    if s != [] && IsWhitespace(s[|s| - 1]) {
      var t := s[..|s| - 1];
      TrimEndDropsWhitespace(t);
      var k := |TrimEnd(s)|;
      assert s[k..] == t[k..] + [s[|s| - 1]];
    }
  }

  /** `s.trim()` */
  function Trim(s: string): (r: string)
    ensures r == [] || (!IsWhitespace(r[0]) && !IsWhitespace(r[|r| - 1]))
  {
    TrimEnd(TrimStart(s))
  }

  /** A string trims to the empty string exactly when it is all whitespace, so `s.trim()` is
      falsy exactly for blank input. */
  lemma {:induction false} TrimEmptyIff(s: string)
    ensures Trim(s) == [] <==> AllWhitespace(s)
  {
    var a := TrimStart(s);
    TrimStartDropsWhitespace(s);
    TrimEndDropsWhitespace(a);
    if Trim(s) == [] {
      assert AllWhitespace(a[0..]);
      assert a == [];
      assert s[..|s|] == s;
    } else {
      assert s[|s| - |a|] == a[0];
    }
  }

  /** `r` is the slice of `s` that starts at `k`. */
  predicate SliceAt(r: string, s: string, k: nat) {
    k + |r| <= |s| && r == s[k..k + |r|]
  }

  /** The kept part is a contiguous slice of the input and nothing else: the input with its
      leading whitespace dropped, cut where the trailing whitespace begins. */
  lemma {:induction false} TrimIsSlice(s: string)
    ensures SliceAt(Trim(s), s, |s| - |TrimStart(s)|)
  {
    var a := TrimStart(s);
    PrefixOfSuffix(s, a, TrimEnd(a));
  }

  lemma PrefixOfSuffix(s: string, a: string, r: string)
    requires |a| <= |s| && a == s[|s| - |a|..]
    requires |r| <= |a| && r == a[..|r|]
    ensures SliceAt(r, s, |s| - |a|)
  {
    var k := |s| - |a|;
    assert s[k..][..|r|] == s[k..k + |r|];
  }

  /** Trimming a trimmed string changes nothing. */
  lemma {:induction false} TrimIdempotent(s: string)
    ensures Trim(Trim(s)) == Trim(s)
  {
    var r := Trim(s);
    assert TrimStart(r) == r;
    assert TrimEnd(r) == r;
  }
}
