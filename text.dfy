/**
 * The two string operations the name gate applies to what was typed:
 * `String.prototype.trim` and `String.prototype.toLowerCase`.
 *
 * Trim removes exactly the ECMAScript WhiteSpace and LineTerminator code
 * points from both ends. ToLower folds only the ASCII letters A-Z.
 */
module Text {

  /** ECMAScript WhiteSpace (TAB, VT, FF, ZWNBSP and every Zs code point) and LineTerminator (LF, CR, LS, PS). */
  function IsSpace(c: char): (b: bool)
    ensures b ==> !IsUpper(c) && !('a' <= c <= 'z')
    ensures c as int < 0x80 ==> (b <==> c == ' ' || '\t' <= c <= '\r')
  {
    || c == '\t' || c == '\n' || c == '\U{B}' || c == '\U{C}' || c == '\r' || c == ' '
    || c == '\U{A0}' || c == '\U{1680}' || ('\U{2000}' <= c <= '\U{200A}')
    || c == '\U{2028}' || c == '\U{2029}' || c == '\U{202F}' || c == '\U{205F}'
    || c == '\U{3000}' || c == '\U{FEFF}'
  }

  ghost predicate AllSpace(s: string) {
    forall i :: 0 <= i < |s| ==> IsSpace(s[i])
  }

  /** Neither end of `s` is white space (true of the empty string). */
  ghost predicate Tight(s: string) {
    s == [] || (!IsSpace(s[0]) && !IsSpace(s[|s| - 1]))
  }

  /** Drops the leading white space. */
  function TrimStart(s: string): (r: string)
    ensures |r| <= |s|
    decreases |s|
  {
    if s != [] && IsSpace(s[0]) then TrimStart(s[1..]) else s
  }

  /** What TrimStart drops is white space, and what it keeps starts with a non-space. */
  lemma {:induction false} TrimStartCuts(s: string) returns (p: string)
    ensures s == p + TrimStart(s) && AllSpace(p)
    ensures TrimStart(s) == [] || !IsSpace(TrimStart(s)[0])
    decreases |s|
  {
    if s != [] && IsSpace(s[0]) {
      var p' := TrimStartCuts(s[1..]);
      p := [s[0]] + p';
      assert TrimStart(s) == TrimStart(s[1..]);
      assert s == [s[0]] + s[1..];
      assert s == p + TrimStart(s);
      forall i | 0 <= i < |p|
        ensures IsSpace(p[i])
      {
        if i > 0 {
          assert p[i] == p'[i - 1];
        }
      }
    } else {
      p := [];
    }
  }

  /** Drops the trailing white space. */
  function TrimEnd(s: string): (r: string)
    ensures |r| <= |s|
    decreases |s|
  {
    if s != [] && IsSpace(s[|s| - 1]) then TrimEnd(s[..|s| - 1]) else s
  }

  /** What TrimEnd drops is white space, and what it keeps ends with a non-space. */
  lemma {:induction false} TrimEndCuts(s: string) returns (q: string)
    ensures s == TrimEnd(s) + q && AllSpace(q)
    ensures TrimEnd(s) == [] || !IsSpace(TrimEnd(s)[|TrimEnd(s)| - 1])
    decreases |s|
  {
    if s != [] && IsSpace(s[|s| - 1]) {
      var q' := TrimEndCuts(s[..|s| - 1]);
      q := q' + [s[|s| - 1]];
      assert TrimEnd(s) == TrimEnd(s[..|s| - 1]);
      assert s == s[..|s| - 1] + [s[|s| - 1]];
      assert s == TrimEnd(s) + q;
      forall i | 0 <= i < |q|
        ensures IsSpace(q[i])
      {
        if i < |q'| {
          assert q[i] == q'[i];
        }
      }
    } else {
      q := [];
    }
  }

  /** `trim()`: white space cut off both ends. */
  function Trim(s: string): (r: string)
    ensures |r| <= |s|
  {
    TrimEnd(TrimStart(s))
  }

  /**
   * What `trim()` cut off is white space on both sides, and what it kept,
   * the block between, starts and ends with a non-space.
   */
  lemma TrimSplit(s: string) returns (p: string, q: string)
    ensures s == p + Trim(s) + q && AllSpace(p) && AllSpace(q) && Tight(Trim(s))
  {
    var t := TrimStart(s);
    p := TrimStartCuts(s);
    q := TrimEndCuts(t);
    var r := TrimEnd(t);
    assert t == r + q;
    if r != [] {
      assert r[0] == t[0];
    }
    assert s == p + (r + q);
    assert p + (r + q) == p + r + q;
  }

  lemma {:induction false} TrimStartPadded(p: string, t: string)
    requires AllSpace(p)
    requires t == [] || !IsSpace(t[0])
    ensures TrimStart(p + t) == t
    decreases |p|
  {
    if p != [] {
      assert (p + t)[1..] == p[1..] + t;
      TrimStartPadded(p[1..], t);
    } else {
      assert p + t == t;
    }
  }

  lemma {:induction false} TrimEndPadded(t: string, q: string)
    requires AllSpace(q)
    requires t == [] || !IsSpace(t[|t| - 1])
    ensures TrimEnd(t + q) == t
    decreases |q|
  {
    if q != [] {
      assert (t + q)[..|t + q| - 1] == t + q[..|q| - 1];
      TrimEndPadded(t, q[..|q| - 1]);
    } else {
      assert t + q == t;
    }
  }

  /** Whatever white space surrounds a tight string, trimming gives that string back. */
  lemma {:induction false} TrimPadded(p: string, w: string, q: string)
    requires AllSpace(p) && AllSpace(q) && Tight(w)
    ensures Trim(p + w + q) == w
  {
    if w == [] {
      assert p + w + q == (p + q) + [];
      TrimStartPadded(p + q, []);
    } else {
      assert p + w + q == p + (w + q);
      TrimStartPadded(p, w + q);
      TrimEndPadded(w, q);
    }
  }

  /** Trimming twice is trimming once. */
  lemma TrimIdempotent(s: string)
    ensures Trim(Trim(s)) == Trim(s)
  {
    var w := Trim(s);
    var _, _ := TrimSplit(s);
    assert [] + w + [] == w;
    TrimPadded([], w, []);
  }

  /** Only a string made entirely of white space trims to nothing. */
  lemma TrimEmpty(s: string)
    ensures Trim(s) == [] <==> AllSpace(s)
  {
    if AllSpace(s) {
      assert s + [] + [] == s;
      TrimPadded(s, [], []);
    } else {
      var p, q := TrimSplit(s);
    }
  }

  predicate IsUpper(c: char) {
    'A' <= c <= 'Z'
  }

  /** ASCII case folding: A-Z become a-z, every other character is kept. */
  function LowerChar(c: char): (d: char)
    ensures !IsUpper(d)
    ensures IsUpper(c) ==> d as int == c as int + 32
    ensures !IsUpper(c) ==> d == c
  {
    if IsUpper(c) then (c as int + 32) as char else c
  }

  /** `toLowerCase()` over ASCII: the same length, each character folded on its own. */
  function ToLower(s: string): (r: string)
    ensures |r| == |s|
    ensures forall i :: 0 <= i < |s| ==> r[i] == LowerChar(s[i])
  {
    if s == [] then [] else [LowerChar(s[0])] + ToLower(s[1..])
  }

  /** A string with no upper-case ASCII letter is its own lower-case form. */
  lemma LowerFixed(s: string)
    requires forall i :: 0 <= i < |s| ==> !IsUpper(s[i])
    ensures ToLower(s) == s
  {
  }

  /** Lower-casing twice is lower-casing once. */
  lemma LowerIdempotent(s: string)
    ensures ToLower(ToLower(s)) == ToLower(s)
  {
    LowerFixed(ToLower(s));
  }
}
