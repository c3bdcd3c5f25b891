/**
 * The string primitives of the JavaScript runtime that the deck code relies on:
 * `trim`, `startsWith`, `split` with a string separator, `join`, and the
 * character classes behind `\s` and `.` in a regular expression without the `u`,
 * `m` or `s` flags.  Strings are sequences of characters.
 */
module Strings {

  import opened Optional

  /** JavaScript's WhiteSpace and LineTerminator characters: what `trim` removes and what `\s` matches. */
  predicate IsWhitespace(c: char) {
    if c < '\U{80}' then ('\t' <= c <= '\r') || c == ' '
    else
      c == '\U{A0}' || c == '\U{1680}' || ('\U{2000}' <= c <= '\U{200A}')
      || c == '\U{2028}' || c == '\U{2029}' || c == '\U{202F}' || c == '\U{205F}'
      || c == '\U{3000}' || c == '\U{FEFF}'
  }

  /** The characters that `.` does not match (JavaScript line terminators). */
  predicate IsLineTerminator(c: char) {
    c == '\n' || c == '\r' || c == '\U{2028}' || c == '\U{2029}'
  }

  /** JavaScript truthiness of an optional string: present and not empty. */
  predicate Truthy(s: Option<string>) {
    s.Some? && s.value != []
  }

  predicate AllWhitespace(s: string) {
    forall i :: 0 <= i < |s| ==> IsWhitespace(s[i])
  }

  /** A string with no whitespace at either end, the shape of every result of `trim`. */
  predicate IsTrimmed(s: string) {
    s == [] || (!IsWhitespace(s[0]) && !IsWhitespace(s[|s| - 1]))
  }

  /**
   * Drops leading whitespace.  The contracts of the trimming functions say
   * only what is cheap to use everywhere; what they mean is proved in the
   * lemmas below them.
   */
  function TrimStart(s: string): (r: string)
    ensures |r| <= |s|
  {
    if |s| > 0 && IsWhitespace(s[0]) then TrimStart(s[1..]) else s
  }

  /** Drops trailing whitespace. */
  function TrimEnd(s: string): (r: string)
    ensures |r| <= |s|
  {
    if |s| > 0 && IsWhitespace(s[|s| - 1]) then TrimEnd(s[..|s| - 1]) else s
  }

  /** `String.prototype.trim`. */
  function Trim(s: string): (r: string)
    ensures |r| <= |s|
  {
    TrimEnd(TrimStart(s))
  }

  /** `TrimStart` keeps a suffix, drops only whitespace, and stops at the first other character. */
  lemma {:induction false} TrimStartSpec(s: string)
    ensures var r := TrimStart(s);
      r == s[|s| - |r|..] && AllWhitespace(s[..|s| - |r|]) && (r == [] || !IsWhitespace(r[0]))
    decreases |s|
  {
    if |s| > 0 && IsWhitespace(s[0]) {
      TrimStartSpec(s[1..]);
      var r := TrimStart(s[1..]);
      assert s[..|s| - |r|] == [s[0]] + s[1..][..|s| - 1 - |r|];
    }
  }

  /** `TrimEnd` keeps a prefix, drops only whitespace, and stops at the last other character. */
  lemma {:induction false} TrimEndSpec(s: string)
    ensures var r := TrimEnd(s);
      r == s[..|r|] && AllWhitespace(s[|r|..]) && (r == [] || !IsWhitespace(r[|r| - 1]))
    decreases |s|
  {
    if |s| > 0 && IsWhitespace(s[|s| - 1]) {
      TrimEndSpec(s[..|s| - 1]);
      var r := TrimEnd(s[..|s| - 1]);
      assert s[|r|..] == s[..|s| - 1][|r|..] + [s[|s| - 1]];
    }
  }

  /**
   * What `trim` computes: the part of `s` between a whitespace-only head and
   * a whitespace-only tail, with no whitespace at either end.
   */
  lemma TrimSpec(s: string)
    ensures var r, a := Trim(s), |s| - |TrimStart(s)|;
      a + |r| <= |s| && r == s[a..a + |r|]
      && AllWhitespace(s[..a]) && AllWhitespace(s[a + |r|..])
      && IsTrimmed(r)
  {
    var t := TrimStart(s);
    var r := TrimEnd(t);
    var a := |s| - |t|;
    TrimStartSpec(s);
    TrimEndSpec(t);
    assert s[a + |r|..] == t[|r|..];
  }

  /** `trim` gives the empty string exactly for strings that are all whitespace. */
  lemma TrimEmpty(s: string)
    ensures Trim(s) == [] <==> AllWhitespace(s)
  {
    var t := TrimStart(s);
    var r := TrimEnd(t);
    var a := |s| - |t|;
    TrimStartSpec(s);
    TrimEndSpec(t);
    if r == [] {
      assert t[|r|..] == t;
      assert s[..a] == s;
    } else {
      TrimSpec(s);
      assert r[0] == s[a];
    }
  }

  /** Trimming a string that is already trimmed changes nothing. */
  lemma TrimOfTrimmed(s: string)
    requires IsTrimmed(s)
    ensures Trim(s) == s
  {
    assert TrimStart(s) == s;
    assert TrimEnd(s) == s;
  }

  /** `String.prototype.startsWith` with an exact (case-sensitive) prefix. */
  predicate StartsWith(s: string, prefix: string) {
    |prefix| <= |s| && s[..|prefix|] == prefix
  }

  predicate IsUpperAscii(c: char) { 'A' <= c <= 'Z' }

  predicate IsLowerAscii(c: char) { 'a' <= c <= 'z' }

  /** Two characters are equal, or they are the same ASCII letter written in the two cases. */
  predicate SameIgnoringAsciiCase(a: char, b: char) {
    a == b
    || (IsUpperAscii(a) && IsLowerAscii(b) && a as int - 'A' as int == b as int - 'a' as int)
    || (IsLowerAscii(a) && IsUpperAscii(b) && a as int - 'a' as int == b as int - 'A' as int)
  }

  /** The lower-case form of an ASCII letter (the same letter of the alphabet); every other character is kept. */
  function LowerAscii(c: char): (r: char)
    ensures IsUpperAscii(c) ==> IsLowerAscii(r) && r as int - 'a' as int == c as int - 'A' as int
    ensures !IsUpperAscii(c) ==> r == c
  {
    if 'A' <= c <= 'Z' then (c as int + 32) as char else c
  }

  /** Two characters fold to the same character exactly when they are equal ignoring ASCII case. */
  lemma LowerAsciiSame(a: char, b: char)
    ensures LowerAscii(a) == LowerAscii(b) <==> SameIgnoringAsciiCase(a, b)
  {
  }

  /** `String.prototype.toLowerCase` restricted to ASCII letters. */
  function ToLower(s: string): (r: string)
    ensures |r| == |s|
  {
    if s == [] then [] else [LowerAscii(s[0])] + ToLower(s[1..])
  }

  /** Folding works character by character. */
  lemma {:induction false} ToLowerAt(s: string, i: nat)
    requires i < |s|
    ensures ToLower(s)[i] == LowerAscii(s[i])
    decreases |s|
  {
    if i > 0 {
      ToLowerAt(s[1..], i - 1);
    }
  }

  /**
   * What a comparison of folded strings accepts: the two strings have the same
   * length and agree at every position up to the case of ASCII letters.
   */
  lemma ToLowerEqual(x: string, y: string)
    ensures ToLower(x) == ToLower(y)
      <==> |x| == |y| && forall i :: 0 <= i < |x| ==> SameIgnoringAsciiCase(x[i], y[i])
  {
    if ToLower(x) == ToLower(y) {
      forall i | 0 <= i < |x|
        ensures SameIgnoringAsciiCase(x[i], y[i])
      {
        ToLowerAt(x, i);
        ToLowerAt(y, i);
        LowerAsciiSame(x[i], y[i]);
      }
    }
    if |x| == |y| && forall i :: 0 <= i < |x| ==> SameIgnoringAsciiCase(x[i], y[i]) {
      forall i | 0 <= i < |x|
        ensures ToLower(x)[i] == ToLower(y)[i]
      {
        ToLowerAt(x, i);
        ToLowerAt(y, i);
        LowerAsciiSame(x[i], y[i]);
      }
    }
  }

  /** A string with no ASCII capital folds to itself. */
  lemma {:induction false} ToLowerNoCapitals(s: string)
    requires forall i :: 0 <= i < |s| ==> !IsUpperAscii(s[i])
    ensures ToLower(s) == s
    decreases |s|
  {
    if s != [] {
      ToLowerNoCapitals(s[1..]);
    }
  }

  /** A prefix test that ignores the case of ASCII letters only. */
  predicate StartsWithIgnoringCase(s: string, prefix: string) {
    |prefix| <= |s| && ToLower(s[..|prefix|]) == ToLower(prefix)
  }

  /** `s` begins with `prefix`, character by character up to ASCII case. */
  predicate BeginsUpToCase(s: string, prefix: string) {
    |prefix| <= |s| && forall i :: 0 <= i < |prefix| ==> SameIgnoringAsciiCase(s[i], prefix[i])
  }

  /** A case-blind prefix test accepts exactly the strings that begin with the prefix up to ASCII case. */
  lemma StartsWithIgnoringCaseSpec(s: string, prefix: string)
    ensures StartsWithIgnoringCase(s, prefix) <==> BeginsUpToCase(s, prefix)
  {
    if |prefix| <= |s| {
      ToLowerEqual(s[..|prefix|], prefix);
    }
  }

  predicate OccursAt(s: string, sep: string, j: int) {
    0 <= j && j + |sep| <= |s| && s[j..j + |sep|] == sep
  }

  ghost predicate Contains(s: string, sep: string) {
    exists j :: OccursAt(s, sep, j)
  }

  /** The first position at or after `from` where `sep` occurs in `s`. */
  function FindFrom(s: string, sep: string, from: nat): (r: Option<nat>)
    requires |sep| > 0
    decreases |s| - from
    ensures r.Some? ==> from <= r.value && OccursAt(s, sep, r.value)
    ensures r.Some? ==> forall j :: from <= j < r.value ==> !OccursAt(s, sep, j)
    ensures r.None? ==> forall j :: from <= j ==> !OccursAt(s, sep, j)
  {
    if from + |sep| > |s| then None
    else if s[from..from + |sep|] == sep then Some(from)
    else FindFrom(s, sep, from + 1)
  }

  /**
   * `s.split(sep)` for a non-empty separator: cut at the leftmost occurrence,
   * then go on after it.  A string without the separator yields itself alone.
   */
  function Split(s: string, sep: string): (r: seq<string>)
    requires |sep| > 0
    ensures |r| >= 1
    decreases |s|
  {
    match FindFrom(s, sep, 0)
    case None => [s]
    case Some(k) => [s[..k]] + Split(s[k + |sep|..], sep)
  }

  /** `pieces.join(sep)`: the empty list joins to the empty string. */
  function JoinWith(pieces: seq<string>, sep: string): (r: string)
    decreases |pieces|
  {
    if |pieces| == 0 then []
    else if |pieces| == 1 then pieces[0]
    else pieces[0] + sep + JoinWith(pieces[1..], sep)
  }

  /** Joining the pieces of a split with the same separator gives back the original string. */
  lemma {:induction false} JoinSplit(s: string, sep: string)
    requires |sep| > 0
    ensures JoinWith(Split(s, sep), sep) == s
    decreases |s|
  {
    match FindFrom(s, sep, 0)
    case None =>
    case Some(k) =>
      var rest := s[k + |sep|..];
      var tail := Split(rest, sep);
      assert Split(s, sep) == [s[..k]] + tail;
      JoinSplit(rest, sep);
      assert ([s[..k]] + tail)[1..] == tail;
      assert JoinWith(Split(s, sep), sep) == s[..k] + sep + rest;
      assert s[k..k + |sep|] == sep;
      assert s == s[..k] + s[k..k + |sep|] + rest;
  }

  /** No piece of a split contains the separator. */
  lemma {:induction false} SplitPiecesAvoidSeparator(s: string, sep: string)
    requires |sep| > 0
    ensures forall p :: p in Split(s, sep) ==> !Contains(p, sep)
    decreases |s|
  {
    match FindFrom(s, sep, 0)
    case None =>
      assert Split(s, sep) == [s];
    case Some(k) =>
      var rest := s[k + |sep|..];
      SplitPiecesAvoidSeparator(rest, sep);
      forall j | OccursAt(s[..k], sep, j)
        ensures false
      {
        assert s[..k][j..j + |sep|] == s[j..j + |sep|];
        assert OccursAt(s, sep, j);
      }
      assert Split(s, sep) == [s[..k]] + Split(rest, sep);
  }

  /** `sep` occurs in `piece + sep` only at the end, where it was put. */
  predicate OnlyAtEnd(piece: string, sep: string) {
    forall j :: 0 <= j < |piece| ==> !OccursAt(piece + sep, sep, j)
  }

  /** The piece cut off before the leftmost occurrence holds no earlier occurrence. */
  lemma FirstPieceOnlyAtEnd(s: string, sep: string, k: nat)
    requires |sep| > 0 && FindFrom(s, sep, 0) == Some(k)
    ensures OnlyAtEnd(s[..k], sep)
  {
    assert OccursAt(s, sep, k);
    var p := s[..k] + sep;
    assert p == s[..k + |sep|];
    forall j | 0 <= j < k
      ensures !OccursAt(p, sep, j)
    {
      assert !OccursAt(s, sep, j);
      assert p[j..j + |sep|] == s[j..j + |sep|];
    }
  }

  /**
   * Each cut falls at the leftmost occurrence of the separator left in the
   * string: a piece followed by the separator holds no earlier occurrence,
   * and the last piece holds none.  With `JoinSplit` this fixes the pieces
   * even for a separator that overlaps itself.
   */
  lemma {:induction false} SplitCutsLeftmost(s: string, sep: string)
    requires |sep| > 0
    ensures var r := Split(s, sep);
      (forall i :: 0 <= i < |r| - 1 ==> OnlyAtEnd(r[i], sep)) && !Contains(r[|r| - 1], sep)
    decreases |s|
  {
    match FindFrom(s, sep, 0)
    case None =>
      assert Split(s, sep) == [s];
    case Some(k) =>
      var rest := s[k + |sep|..];
      var tail := Split(rest, sep);
      var r := Split(s, sep);
      assert r == [s[..k]] + tail;
      SplitCutsLeftmost(rest, sep);
      FirstPieceOnlyAtEnd(s, sep, k);
      ConsCutsLeftmost(s[..k], tail, sep);
  }

  lemma ConsCutsLeftmost(p: string, tail: seq<string>, sep: string)
    requires |tail| > 0 && OnlyAtEnd(p, sep)
    requires forall i :: 0 <= i < |tail| - 1 ==> OnlyAtEnd(tail[i], sep)
    requires !Contains(tail[|tail| - 1], sep)
    ensures var r := [p] + tail;
      (forall i :: 0 <= i < |r| - 1 ==> OnlyAtEnd(r[i], sep)) && !Contains(r[|r| - 1], sep)
  {
    var r := [p] + tail;
    assert r[|r| - 1] == tail[|tail| - 1];
    forall i | 0 <= i < |r| - 1
      ensures OnlyAtEnd(r[i], sep)
    {
      if i > 0 {
        assert r[i] == tail[i - 1];
      }
    }
  }

  /** Joining two non-empty lists of pieces is joining each and putting the separator between. */
  lemma {:induction false} JoinWithAppend(a: seq<string>, b: seq<string>, sep: string)
    requires |a| > 0 && |b| > 0
    ensures JoinWith(a + b, sep) == JoinWith(a, sep) + sep + JoinWith(b, sep)
    decreases |a|
  {
    var ab := a + b;
    assert ab[0] == a[0];
    if |a| == 1 {
      assert ab[1..] == b;
      assert JoinWith(ab, sep) == a[0] + sep + JoinWith(b, sep);
    } else {
      assert ab[1..] == a[1..] + b;
      JoinWithAppend(a[1..], b, sep);
      calc {
        JoinWith(ab, sep);
        a[0] + sep + JoinWith(a[1..] + b, sep);
        a[0] + sep + (JoinWith(a[1..], sep) + sep + JoinWith(b, sep));
        { SeqAssoc(a[0] + sep, JoinWith(a[1..], sep), sep + JoinWith(b, sep)); }
        a[0] + sep + JoinWith(a[1..], sep) + sep + JoinWith(b, sep);
      }
    }
  }

  /** Concatenation is associative (a step the solver does not always take by itself). */
  lemma SeqAssoc(x: string, y: string, z: string)
    ensures x + y + z == x + (y + z)
  {
  }

  /**
   * Splitting on one character undoes joining with it, as long as no piece
   * contains that character: the exact inverse of `JoinWith` for line lists.
   */
  lemma {:induction false} SplitJoinOnChar(pieces: seq<string>, c: char)
    requires |pieces| > 0
    requires forall p :: p in pieces ==> c !in p
    ensures Split(JoinWith(pieces, [c]), [c]) == pieces
    decreases |pieces|
  {
    var s := JoinWith(pieces, [c]);
    var p0 := pieces[0];
    assert p0 in pieces;
    forall j | 0 <= j < |p0|
      ensures !OccursAt(s, [c], j)
    {
      assert s[j..j + 1] == [p0[j]];
      assert p0[j] in p0;
    }
    if |pieces| == 1 {
      assert FindFrom(s, [c], 0).None?;
    } else {
      var rest := JoinWith(pieces[1..], [c]);
      assert s == p0 + [c] + rest;
      assert OccursAt(s, [c], |p0|);
      assert FindFrom(s, [c], 0) == Some(|p0|);
      assert s[|p0| + 1..] == rest;
      assert s[..|p0|] == p0;
      SplitJoinOnChar(pieces[1..], c);
      assert pieces == [p0] + pieces[1..];
    }
  }
}
