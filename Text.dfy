/** String helpers the interpreter applies to user input: JavaScript's `trim`,
    `toLowerCase` and `startsWith`, over the characters the model knows about. */
module Text {

  /** The characters `String.prototype.trim` removes that this model recognises:
      the ASCII spaces and line breaks, no-break space, the two Unicode line and
      paragraph separators and the byte-order mark. */
  predicate IsWhitespace(c: char) {
    c == ' ' || c == '\t' || c == '\n' || c == '\r' || c == '\U{000B}' || c == '\U{000C}'
    || c == '\U{00A0}' || c == '\U{2028}' || c == '\U{2029}' || c == '\U{FEFF}'
  }

  predicate AllWhitespace(s: string) {
    forall i :: 0 <= i < |s| ==> IsWhitespace(s[i])
  }

  /** Neither end of `s` is whitespace. */
  predicate IsTrimmed(s: string) {
    s == [] || (!IsWhitespace(s[0]) && !IsWhitespace(s[|s| - 1]))
  }

  predicate IsUpper(c: char) {
    'A' <= c <= 'Z'
  }

  /** `toLowerCase` on one character (ASCII letters only). */
  function LowerChar(c: char): (r: char)
    ensures !IsUpper(r)
    ensures IsWhitespace(r) <==> IsWhitespace(c)
    ensures !IsUpper(c) ==> r == c
  {
    if IsUpper(c) then (c as int + 32) as char else c
  }

  function ToLower(s: string): (r: string)
    ensures |r| == |s|
  {
    if s == [] then [] else [LowerChar(s[0])] + ToLower(s[1..])
  }

  /** `toLowerCase` maps each character on its own. */
  lemma {:induction false} ToLowerAt(s: string)
    ensures forall i :: 0 <= i < |s| ==> ToLower(s)[i] == LowerChar(s[i])
  {
    if s != [] {
      ToLowerAt(s[1..]);
    }
  }

  /** Drops the leading whitespace. */
  function TrimStart(s: string): (r: string)
    ensures |r| <= |s|
    ensures r == [] || !IsWhitespace(r[0])
  {
    if s != [] && IsWhitespace(s[0]) then TrimStart(s[1..]) else s
  }

  /** Drops the trailing whitespace. */
  function TrimEnd(s: string): (r: string)
    ensures |r| <= |s|
    ensures r != [] ==> r[0] == s[0]
    ensures r == [] || !IsWhitespace(r[|r| - 1])
  {
    if s != [] && IsWhitespace(s[|s| - 1]) then TrimEnd(s[..|s| - 1]) else s
  }

  /** What `TrimStart` drops is whitespace, and all it drops. */
  lemma {:induction false} TrimStartSplit(s: string) returns (pre: string)
    ensures AllWhitespace(pre) && s == pre + TrimStart(s)
  {
    if s != [] && IsWhitespace(s[0]) {
      var p := TrimStartSplit(s[1..]);
      pre := [s[0]] + p;
      assert s == [s[0]] + s[1..];
    } else {
      pre := [];
    }
  }

  /** What `TrimEnd` drops is whitespace, and all it drops. */
  lemma {:induction false} TrimEndSplit(s: string) returns (post: string)
    ensures AllWhitespace(post) && s == TrimEnd(s) + post
  {
    if s != [] && IsWhitespace(s[|s| - 1]) {
      var p := TrimEndSplit(s[..|s| - 1]);
      post := p + [s[|s| - 1]];
      assert s == s[..|s| - 1] + [s[|s| - 1]];
    } else {
      post := [];
    }
  }

  /** `String.prototype.trim`. */
  function Trim(s: string): (r: string)
    ensures IsTrimmed(r)
    ensures |r| <= |s|
  {
    TrimEnd(TrimStart(s))
  }

  /** The key under which the interpreter looks a command up: trimmed, then lower-cased. */
  function Normalize(s: string): string {
    ToLower(Trim(s))
  }

  /** `String.prototype.startsWith`. */
  predicate StartsWith(s: string, prefix: string) {
    |prefix| <= |s| && s[..|prefix|] == prefix
  }

  lemma {:induction false} TrimStartOfPadded(pre: string, u: string)
    requires AllWhitespace(pre)
    requires u == [] || !IsWhitespace(u[0])
    ensures TrimStart(pre + u) == u
  {
    if pre != [] {
      assert (pre + u)[1..] == pre[1..] + u;
      TrimStartOfPadded(pre[1..], u);
    }
  }

  lemma {:induction false} TrimEndOfPadded(u: string, post: string)
    requires AllWhitespace(post)
    requires u == [] || !IsWhitespace(u[|u| - 1])
    ensures TrimEnd(u + post) == u
  {
    if post != [] {
      assert (u + post)[..|u + post| - 1] == u + post[..|post| - 1];
      TrimEndOfPadded(u, post[..|post| - 1]);
    } else {
      assert u + post == u;
    }
  }

  /** Trim removes exactly the surrounding whitespace: a trimmed core padded with
      whitespace on both sides trims back to that core. */
  lemma TrimOfPadded(pre: string, t: string, post: string)
    requires AllWhitespace(pre) && AllWhitespace(post) && IsTrimmed(t)
    ensures Trim(pre + t + post) == t
  {
    if t == [] {
      assert pre + t + post == (pre + post) + [];
      TrimStartOfPadded(pre + post, []);
    } else {
      assert pre + t + post == pre + (t + post);
      TrimStartOfPadded(pre, t + post);
      TrimEndOfPadded(t, post);
    }
  }

  /** Text without surrounding whitespace is its own trimmed form. */
  lemma TrimOfTrimmed(s: string)
    requires IsTrimmed(s)
    ensures Trim(s) == s
  {
    var none: string := [];
    assert none + s + none == s;
    TrimOfPadded(none, s, none);
  }

  /** Every string is its trimmed form with whitespace on either side. */
  lemma TrimSplit(s: string) returns (pre: string, post: string)
    ensures AllWhitespace(pre) && AllWhitespace(post)
    ensures s == pre + Trim(s) + post
  {
    var a := TrimStart(s);
    pre := TrimStartSplit(s);
    post := TrimEndSplit(a);
  }

  lemma ToLowerConcat(a: string, b: string)
    ensures ToLower(a + b) == ToLower(a) + ToLower(b)
  {
    ToLowerAt(a + b);
    ToLowerAt(a);
    ToLowerAt(b);
    assert forall i :: 0 <= i < |a + b| ==> ToLower(a + b)[i] == (ToLower(a) + ToLower(b))[i];
  }

  lemma AllWhitespaceConcat(a: string, b: string)
    requires AllWhitespace(a) && AllWhitespace(b)
    ensures AllWhitespace(a + b)
  {
  }

  /** Lower-casing before or after trimming gives the same key. */
  lemma NormalizeLowersFirst(s: string)
    ensures Normalize(s) == Trim(ToLower(s))
  {
    var pre, post := TrimSplit(s);
    var t := Trim(s);
    ToLowerConcat(pre + t, post);
    ToLowerConcat(pre, t);
    var lt := ToLower(t);
    ToLowerAt(t);
    ToLowerAt(pre);
    ToLowerAt(post);
    assert lt == [] || (!IsWhitespace(lt[0]) && !IsWhitespace(lt[|lt| - 1]));
    assert ToLower(s) == ToLower(pre) + lt + ToLower(post);
    TrimOfPadded(ToLower(pre), lt, ToLower(post));
  }

  /** Inputs that differ only in letter case normalise to the same key. */
  lemma NormalizeIgnoresCase(a: string, b: string)
    requires ToLower(a) == ToLower(b)
    ensures Normalize(a) == Normalize(b)
  {
    NormalizeLowersFirst(a);
    NormalizeLowersFirst(b);
  }

  /** Inputs that differ only in surrounding whitespace normalise to the same key. */
  lemma NormalizeIgnoresPadding(pre: string, s: string, post: string)
    requires AllWhitespace(pre) && AllWhitespace(post)
    ensures Normalize(pre + s + post) == Normalize(s)
  {
    var p, q := TrimSplit(s);
    var t := Trim(s);
    var left, right := pre + p, q + post;
    AllWhitespaceConcat(pre, p);
    AllWhitespaceConcat(q, post);
    Regroup(pre, p, t, q, post);
    TrimOfPadded(left, t, right);
  }

  lemma Regroup(a: string, b: string, c: string, d: string, e: string)
    ensures a + (b + c + d) + e == (a + b) + c + (d + e)
  {
  }

  /** A key that is already trimmed and has no upper-case letter is its own key. */
  lemma NormalizeOfNormalForm(k: string)
    requires IsTrimmed(k) && forall i :: 0 <= i < |k| ==> !IsUpper(k[i])
    ensures Normalize(k) == k
  {
    var none: string := [];
    assert none + k + none == k;
    TrimOfPadded(none, k, none);
    assert Trim(k) == k;
    var lk := ToLower(k);
    ToLowerAt(k);
    assert forall i :: 0 <= i < |k| ==> lk[i] == k[i];
    assert lk == k;
  }

  /** Lower-casing leaves a string without upper-case letters as it is. */
  lemma ToLowerOfLower(k: string)
    requires forall i :: 0 <= i < |k| ==> !IsUpper(k[i])
    ensures ToLower(k) == k
  {
    var lk := ToLower(k);
    ToLowerAt(k);
    assert forall i :: 0 <= i < |k| ==> lk[i] == k[i];
  }

  /** The key is empty exactly when the input is all whitespace. */
  lemma BlankIffAllWhitespace(s: string)
    ensures Normalize(s) == [] <==> AllWhitespace(s)
  {
    var none: string := [];
    if AllWhitespace(s) {
      assert s + none + none == s;
      TrimOfPadded(s, none, none);
    }
    if Normalize(s) == [] {
      var pre, post := TrimSplit(s);
      assert s == pre + post;
      AllWhitespaceConcat(pre, post);
    }
  }

  /** Normalising twice is normalising once. */
  lemma NormalizeIdempotent(s: string)
    ensures Normalize(Normalize(s)) == Normalize(s)
  {
    ToLowerAt(Trim(s));
    NormalizeOfNormalForm(Normalize(s));
  }
}
