/** The string rewriting parseExpression and parseExactSolution apply before
    the expression compiler sees the text: trim, `**` to `^`, then `*` between
    a digit and a letter that follows it. */
module Preprocess {

  /** ASCII white space: space, tab, line feed, vertical tab, form feed, carriage return. */
  predicate IsSpace(c: char)
  {
    c == ' ' || '\t' <= c <= '\r'
  }

  /** The regular-expression class `\d`. */
  predicate IsDigit(c: char)
  {
    '0' <= c <= '9'
  }

  /** The regular-expression class `[a-zA-Z]`. */
  predicate IsLetter(c: char)
  {
    'a' <= c <= 'z' || 'A' <= c <= 'Z'
  }

  /** `**` starts at position i. */
  predicate DoubleStarAt(s: string, i: int)
    requires 0 <= i < |s| - 1
  {
    s[i] == '*' && s[i + 1] == '*'
  }

  /** A digit at position i is followed by a letter. */
  predicate DigitLetterAt(s: string, i: int)
    requires 0 <= i < |s| - 1
  {
    IsDigit(s[i]) && IsLetter(s[i + 1])
  }

  /** A digit, `*` and a letter start at position i. */
  predicate DigitStarLetterAt(s: string, i: int)
    requires 0 <= i < |s| - 2
  {
    IsDigit(s[i]) && s[i + 1] == '*' && IsLetter(s[i + 2])
  }

  predicate NoDoubleStar(s: string)
  {
    forall i :: 0 <= i < |s| - 1 ==> !DoubleStarAt(s, i)
  }

  predicate NoDigitLetter(s: string)
  {
    forall i :: 0 <= i < |s| - 1 ==> !DigitLetterAt(s, i)
  }

  predicate NoDigitStarLetter(s: string)
  {
    forall i :: 0 <= i < |s| - 2 ==> !DigitStarLetterAt(s, i)
  }

  // trim()

  /** Drops leading white space. */
  function TrimStart(s: string): (r: string)
    ensures |r| <= |s|
    ensures r == [] || !IsSpace(r[0])
  {
    if s != [] && IsSpace(s[0]) then TrimStart(s[1..]) else s
  }

  /** Drops trailing white space; the first character stays first. */
  function TrimEnd(s: string): (r: string)
    ensures |r| <= |s|
    ensures r == [] || (!IsSpace(r[|r| - 1]) && r[0] == s[0])
  {
    if s != [] && IsSpace(s[|s| - 1]) then TrimEnd(s[..|s| - 1]) else s
  }

  /** What TrimStart keeps is a suffix, and everything in front of it is blank. */
  lemma {:induction false} TrimStartKeepsSuffix(s: string)
    ensures TrimStart(s) == s[|s| - |TrimStart(s)|..]
    ensures forall i :: 0 <= i < |s| - |TrimStart(s)| ==> IsSpace(s[i])
  {
    if s != [] && IsSpace(s[0]) {
      TrimStartKeepsSuffix(s[1..]);
      assert s[1..][|s| - 1 - |TrimStart(s)|..] == s[|s| - |TrimStart(s)|..];
      forall i | 0 <= i < |s| - |TrimStart(s)| ensures IsSpace(s[i]) {
        if i > 0 {
          assert s[i] == s[1..][i - 1];
        }
      }
    }
  }

  /** What TrimEnd keeps is a prefix, and everything after it is blank. */
  lemma {:induction false} TrimEndKeepsPrefix(s: string)
    ensures TrimEnd(s) == s[..|TrimEnd(s)|]
    ensures forall i :: |TrimEnd(s)| <= i < |s| ==> IsSpace(s[i])
  {
    if s != [] && IsSpace(s[|s| - 1]) {
      var u := s[..|s| - 1];
      TrimEndKeepsPrefix(u);
      assert u[..|TrimEnd(s)|] == s[..|TrimEnd(s)|];
      forall i | |TrimEnd(s)| <= i < |s| ensures IsSpace(s[i]) {
        if i < |s| - 1 {
          assert s[i] == u[i];
        }
      }
    }
  }

  /** Trim keeps one contiguous slice s[a..b] of its input and drops only blanks
      around it. */
  lemma TrimIsSlice(s: string)
    ensures var a := |s| - |TrimStart(s)|; var b := a + |Trim(s)|;
            && b <= |s| && Trim(s) == s[a..b]
            && (forall i :: 0 <= i < a ==> IsSpace(s[i]))
            && (forall i :: b <= i < |s| ==> IsSpace(s[i]))
  {
    var u := TrimStart(s);
    var a := |s| - |u|;
    TrimStartKeepsSuffix(s);
    assert u == s[a..];
    TrimSliceOfSuffix(s, a);
  }

  /** Trimming the end of the suffix s[a..] keeps a slice s[a..b] and only blanks after it. */
  lemma TrimSliceOfSuffix(s: string, a: nat)
    requires a <= |s|
    ensures var t := TrimEnd(s[a..]); var b := a + |t|;
            && b <= |s| && t == s[a..b]
            && (forall i :: b <= i < |s| ==> IsSpace(s[i]))
  {
    var u := s[a..];
    var t := TrimEnd(u);
    var b := a + |t|;
    TrimEndKeepsPrefix(u);
    SliceOfSuffix(s, a, |t|);
    forall i | b <= i < |s| ensures IsSpace(s[i]) {
      assert s[i] == u[i - a];
    }
  }

  /** Taking the first n of s[a..] is the slice s[a..a+n]. */
  lemma SliceOfSuffix(s: string, a: nat, n: nat)
    requires a + n <= |s|
    ensures s[a..][..n] == s[a..a + n]
  {
  }

  /** `expr.trim()` on ASCII white space. */
  function Trim(s: string): (r: string)
    ensures |r| <= |s|
    ensures r == [] || (!IsSpace(r[0]) && !IsSpace(r[|r| - 1]))
    ensures (s == [] || (!IsSpace(s[0]) && !IsSpace(s[|s| - 1]))) ==> r == s
  {
    TrimEnd(TrimStart(s))
  }

  /** Prepending c keeps "no `**`" unless c and the old head form one. */
  lemma NoDoubleStarCons(c: char, t: string)
    requires NoDoubleStar(t)
    requires t == [] || !(c == '*' && t[0] == '*')
    ensures NoDoubleStar([c] + t)
  {
    var r := [c] + t;
    forall i | 0 <= i < |r| - 1 ensures !DoubleStarAt(r, i) {
      if i >= 1 {
        assert !DoubleStarAt(t, i - 1);
      }
    }
  }

  lemma NoDoubleStarSuffix(s: string, k: nat)
    requires k <= |s|
    ensures NoDoubleStar(s) ==> NoDoubleStar(s[k..])
  {
    if NoDoubleStar(s) {
      var u := s[k..];
      forall i | 0 <= i < |u| - 1 ensures !DoubleStarAt(u, i) {
        assert !DoubleStarAt(s, k + i);
      }
    }
  }

  // replace(/\*\*/g, '^')

  /** Replaces each `**` by `^`, scanning left to right without overlaps, so
      `***` becomes `^*`: the output is never longer, starts with `*` exactly
      when the input starts with a lone `*`, and keeps the input's end
      characters except where a `^` was written. */
  function ReplacePow(s: string): (r: string)
    ensures |r| <= |s|
    ensures s != [] ==> r != [] && (r[0] == '*' <==> s[0] == '*' && (|s| == 1 || s[1] != '*'))
    ensures s != [] ==> (r[0] == s[0] || r[0] == '^') && (r[|r| - 1] == s[|s| - 1] || r[|r| - 1] == '^')
  {
    if |s| >= 2 && s[0] == '*' && s[1] == '*' then "^" + ReplacePow(s[2..])
    else if s == [] then []
    else [s[0]] + ReplacePow(s[1..])
  }

  /** No `**` survives the replacement. */
  lemma {:induction false} ReplacePowLeavesNoDoubleStar(s: string)
    ensures NoDoubleStar(ReplacePow(s))
  {
    if |s| >= 2 && s[0] == '*' && s[1] == '*' {
      ReplacePowLeavesNoDoubleStar(s[2..]);
      NoDoubleStarCons('^', ReplacePow(s[2..]));
    } else if s != [] {
      ReplacePowLeavesNoDoubleStar(s[1..]);
      NoDoubleStarCons(s[0], ReplacePow(s[1..]));
    }
  }

  /** Text without `**` passes through unchanged. */
  lemma {:induction false} ReplacePowIdentity(s: string)
    requires NoDoubleStar(s)
    ensures ReplacePow(s) == s
  {
    if s != [] {
      if |s| >= 2 {
        assert !DoubleStarAt(s, 0);
      }
      NoDoubleStarSuffix(s, 1);
      ReplacePowIdentity(s[1..]);
    }
  }

  /** Writes every `^` back as `**`. */
  function ExpandPow(s: string): string
  {
    if s == [] then [] else (if s[0] == '^' then "**" else [s[0]]) + ExpandPow(s[1..])
  }

  /** Expanding one character in front of t. */
  lemma ExpandPowCons(c: char, t: string)
    ensures ExpandPow([c] + t) == (if c == '^' then "**" else [c]) + ExpandPow(t)
  {
    assert ([c] + t)[1..] == t;
  }

  /** On every text, `^` and `**` mean the same after expansion: replacing `**`
      by `^` never changes what the expanded text says. */
  lemma {:induction false} ExpandPowOfReplacePow(s: string)
    ensures ExpandPow(ReplacePow(s)) == ExpandPow(s)
    decreases |s|
  {
    if |s| >= 2 && s[0] == '*' && s[1] == '*' {
      ExpandPowOfReplacePow(s[2..]);
      ExpandPowAtDoubleStar(s);
    } else if s != [] {
      ExpandPowOfReplacePow(s[1..]);
      ExpandPowElsewhere(s);
    }
  }

  /** The `**` case: both sides expand to `**` in front of the rest. */
  lemma ExpandPowAtDoubleStar(s: string)
    requires |s| >= 2 && s[0] == '*' && s[1] == '*'
    requires ExpandPow(ReplacePow(s[2..])) == ExpandPow(s[2..])
    ensures ExpandPow(ReplacePow(s)) == ExpandPow(s)
  {
    var r := ReplacePow(s[2..]);
    ReplacePowAtDoubleStar(s);
    ExpandPowCons('^', r);
    ExpandPowHead(s);
    ExpandPowHead(s[1..]);
    assert s[1..][1..] == s[2..];
  }

  /** A leading `**` becomes one `^`. */
  lemma ReplacePowAtDoubleStar(s: string)
    requires |s| >= 2 && s[0] == '*' && s[1] == '*'
    ensures ReplacePow(s) == ['^'] + ReplacePow(s[2..])
  {
  }

  /** Any other first character is kept by the replacement and expanded alike. */
  lemma ExpandPowElsewhere(s: string)
    requires s != [] && !(|s| >= 2 && s[0] == '*' && s[1] == '*')
    requires ExpandPow(ReplacePow(s[1..])) == ExpandPow(s[1..])
    ensures ExpandPow(ReplacePow(s)) == ExpandPow(s)
  {
    var r := ReplacePow(s[1..]);
    ReplacePowKeepsHead(s);
    ExpandPowCons(s[0], r);
    ExpandPowHead(s);
  }

  /** Outside a `**`, the replacement copies the first character. */
  lemma ReplacePowKeepsHead(s: string)
    requires s != [] && !(|s| >= 2 && s[0] == '*' && s[1] == '*')
    ensures ReplacePow(s) == [s[0]] + ReplacePow(s[1..])
  {
  }

  /** Expansion of a non-empty text, by its first character. */
  lemma ExpandPowHead(s: string)
    requires s != []
    ensures ExpandPow(s) == (if s[0] == '^' then "**" else [s[0]]) + ExpandPow(s[1..])
  {
  }

  /** On text without a `^` of its own, expanding undoes the replacement. */
  lemma {:induction false} ReplacePowRoundTrip(s: string)
    requires '^' !in s
    ensures ExpandPow(ReplacePow(s)) == s
  {
    if |s| >= 2 && s[0] == '*' && s[1] == '*' {
      var t := ReplacePow(s[2..]);
      ReplacePowRoundTrip(s[2..]);
      assert ("^" + t)[1..] == t;
      assert s == "**" + s[2..];
    } else if s != [] {
      var t := ReplacePow(s[1..]);
      ReplacePowRoundTrip(s[1..]);
      assert ([s[0]] + t)[1..] == t;
    }
  }

  // replace(/(\d)([a-zA-Z])/g, '$1*$2')

  /** The regular-expression scan: at a digit followed by a letter emit both with
      `*` between and resume after the letter; otherwise emit one character. */
  function InsertMul(s: string): (r: string)
    ensures s != [] ==> r != [] && r[0] == s[0]
  {
    if |s| < 2 then s
    else if IsDigit(s[0]) && IsLetter(s[1]) then [s[0], '*', s[1]] + InsertMul(s[2..])
    else [s[0]] + InsertMul(s[1..])
  }

  /** The last character is never moved: `*` only goes before a letter. */
  lemma {:induction false} InsertMulKeepsLast(s: string)
    ensures s != [] ==> InsertMul(s) != [] && InsertMul(s)[|InsertMul(s)| - 1] == s[|s| - 1]
  {
    if |s| >= 2 {
      if IsDigit(s[0]) && IsLetter(s[1]) {
        if |s| == 2 {
          assert InsertMul(s) == [s[0], '*', s[1]];
        } else {
          InsertMulKeepsLast(s[2..]);
        }
      } else {
        InsertMulKeepsLast(s[1..]);
      }
    }
  }

  /** Prepending c keeps "no digit before a letter" unless c is a digit and the old head a letter. */
  lemma NoDigitLetterCons(c: char, t: string)
    requires NoDigitLetter(t)
    requires t == [] || !(IsDigit(c) && IsLetter(t[0]))
    ensures NoDigitLetter([c] + t)
  {
    var r := [c] + t;
    forall i | 0 <= i < |r| - 1 ensures !DigitLetterAt(r, i) {
      if i >= 1 {
        assert !DigitLetterAt(t, i - 1);
      }
    }
  }

  lemma NoDigitLetterSuffix(s: string, k: nat)
    requires k <= |s|
    ensures NoDigitLetter(s) ==> NoDigitLetter(s[k..])
  {
    if NoDigitLetter(s) {
      var u := s[k..];
      forall i | 0 <= i < |u| - 1 ensures !DigitLetterAt(u, i) {
        assert !DigitLetterAt(s, k + i);
      }
    }
  }

  /** After the pass no digit is directly followed by a letter: a `*` separates them. */
  lemma {:induction false} InsertMulSeparates(s: string)
    ensures NoDigitLetter(InsertMul(s))
  {
    if |s| >= 2 {
      if IsDigit(s[0]) && IsLetter(s[1]) {
        var t := InsertMul(s[2..]);
        InsertMulSeparates(s[2..]);
        NoDigitLetterCons(s[1], t);
        NoDigitLetterCons('*', [s[1]] + t);
        NoDigitLetterCons(s[0], ['*'] + ([s[1]] + t));
        assert InsertMul(s) == [s[0]] + (['*'] + ([s[1]] + t));
      } else {
        InsertMulSeparates(s[1..]);
        NoDigitLetterCons(s[0], InsertMul(s[1..]));
      }
    }
  }

  /** Text without a digit-letter boundary passes through unchanged. */
  lemma {:induction false} InsertMulIdentity(s: string)
    requires NoDigitLetter(s)
    ensures InsertMul(s) == s
  {
    if |s| >= 2 {
      assert !DigitLetterAt(s, 0);
      NoDigitLetterSuffix(s, 1);
      InsertMulIdentity(s[1..]);
    }
  }

  /** The pass creates no `**`: each inserted `*` has a digit before it and a letter after it. */
  lemma {:induction false} InsertMulKeepsNoDoubleStar(s: string)
    requires NoDoubleStar(s)
    ensures NoDoubleStar(InsertMul(s))
  {
    if |s| >= 2 {
      if IsDigit(s[0]) && IsLetter(s[1]) {
        NoDoubleStarSuffix(s, 2);
        InsertMulKeepsNoDoubleStar(s[2..]);
        NoDoubleStarAroundStar(s[0], s[1], InsertMul(s[2..]));
        InsertMulAtBoundary(s);
      } else {
        assert !DoubleStarAt(s, 0);
        NoDoubleStarSuffix(s, 1);
        InsertMulKeepsNoDoubleStar(s[1..]);
        NoDoubleStarCons(s[0], InsertMul(s[1..]));
        InsertMulElsewhere(s);
      }
    }
  }

  /** A `*` between a digit and a letter, in front of text without `**`, makes no `**`. */
  lemma NoDoubleStarAroundStar(d: char, c: char, t: string)
    requires IsDigit(d) && IsLetter(c) && NoDoubleStar(t)
    ensures NoDoubleStar([d] + (['*'] + ([c] + t)))
  {
    NoDoubleStarCons(c, t);
    NoDoubleStarCons('*', [c] + t);
    NoDoubleStarCons(d, ['*'] + ([c] + t));
  }

  /** At a digit-letter boundary the pass writes digit, `*`, letter. */
  lemma InsertMulAtBoundary(s: string)
    requires |s| >= 2 && IsDigit(s[0]) && IsLetter(s[1])
    ensures InsertMul(s) == [s[0]] + (['*'] + ([s[1]] + InsertMul(s[2..])))
  {
  }

  /** Elsewhere the pass copies the first character. */
  lemma InsertMulElsewhere(s: string)
    requires |s| >= 2 && !(IsDigit(s[0]) && IsLetter(s[1]))
    ensures InsertMul(s) == [s[0]] + InsertMul(s[1..])
  {
  }

  /** Reference definition: a `*` at every digit-letter boundary of the input. */
  function InsertAtBoundaries(s: string): string
  {
    if |s| < 2 then s
    else [s[0]] + (if IsDigit(s[0]) && IsLetter(s[1]) then "*" else "") + InsertAtBoundaries(s[1..])
  }

  /** The number of digit-letter boundaries in s. */
  function Boundaries(s: string): nat
  {
    if |s| < 2 then 0
    else (if IsDigit(s[0]) && IsLetter(s[1]) then 1 else 0) + Boundaries(s[1..])
  }

  /** The reference definition adds one character per boundary. */
  lemma {:induction false} BoundariesCount(s: string)
    ensures |InsertAtBoundaries(s)| == |s| + Boundaries(s)
  {
    if |s| >= 2 {
      BoundariesCount(s[1..]);
    }
  }

  /** At a letter the reference definition inserts nothing. */
  lemma BoundariesAfterLetter(t: string)
    requires |t| >= 1 && IsLetter(t[0])
    ensures InsertAtBoundaries(t) == [t[0]] + InsertAtBoundaries(t[1..])
  {
    if |t| < 2 {
      assert t == [t[0]] && t[1..] == [];
    }
  }

  /** One step of the scan at a boundary: the letter after it starts no match. */
  lemma ScanStepAtBoundary(s: string)
    requires |s| >= 2 && IsDigit(s[0]) && IsLetter(s[1])
    requires InsertMul(s[2..]) == InsertAtBoundaries(s[2..])
    ensures InsertMul(s) == InsertAtBoundaries(s)
  {
    var t := s[1..];
    var rest := InsertAtBoundaries(s[2..]);
    assert t[1..] == s[2..];
    BoundariesAfterLetter(t);
    assert InsertAtBoundaries(s) == [s[0]] + "*" + ([s[1]] + rest);
    assert InsertMul(s) == [s[0], '*', s[1]] + rest;
  }

  /** A letter never starts a match, so the left-to-right scan inserts at every
      boundary: exactly one `*` per boundary and nothing else. */
  lemma {:induction false} ScanInsertsAtEveryBoundary(s: string)
    ensures InsertMul(s) == InsertAtBoundaries(s)
    ensures |InsertMul(s)| == |s| + Boundaries(s)
  {
    if |s| >= 2 {
      if IsDigit(s[0]) && IsLetter(s[1]) {
        ScanInsertsAtEveryBoundary(s[2..]);
        ScanStepAtBoundary(s);
      } else {
        ScanInsertsAtEveryBoundary(s[1..]);
      }
    }
    BoundariesCount(s);
  }

  /** Deletes each `*` that sits between a digit and a letter. */
  function RemoveMul(r: string): string
  {
    if |r| < 3 then r
    else if IsDigit(r[0]) && r[1] == '*' && IsLetter(r[2]) then [r[0]] + RemoveMul(r[2..])
    else [r[0]] + RemoveMul(r[1..])
  }

  lemma RemoveMulCons(c: char, t: string)
    requires !(IsDigit(c) && |t| >= 2 && t[0] == '*' && IsLetter(t[1]))
    ensures RemoveMul([c] + t) == [c] + RemoveMul(t)
  {
    assert ([c] + t)[1..] == t;
  }

  lemma NoDigitStarLetterSuffix(s: string, k: nat)
    requires k <= |s| && NoDigitStarLetter(s)
    ensures NoDigitStarLetter(s[k..])
  {
    var u := s[k..];
    forall i | 0 <= i < |u| - 2 ensures !DigitStarLetterAt(u, i) {
      assert !DigitStarLetterAt(s, k + i);
    }
  }

  /** RemoveMul drops the `*` of a digit-star-letter at the front. */
  lemma RemoveMulAtStar(d: char, l: char, t: string)
    requires IsDigit(d) && IsLetter(l)
    ensures RemoveMul([d, '*', l] + t) == [d, l] + RemoveMul(t)
  {
    var r := [d, '*', l] + t;
    assert r[2..] == [l] + t;
    RemoveMulCons(l, t);
  }

  /** One step of the round trip at a digit-letter boundary. */
  lemma UndoAtBoundary(s: string)
    requires |s| >= 2 && IsDigit(s[0]) && IsLetter(s[1])
    requires RemoveMul(InsertMul(s[2..])) == s[2..]
    ensures RemoveMul(InsertMul(s)) == s
  {
    var t := InsertMul(s[2..]);
    assert InsertMul(s) == [s[0], '*', s[1]] + t;
    RemoveMulAtStar(s[0], s[1], t);
    assert s == [s[0], s[1]] + s[2..];
  }

  /** A scan that does not start at a digit keeps the second character in place. */
  lemma InsertMulSecond(u: string)
    requires |u| >= 2 && !IsDigit(u[0])
    ensures InsertMul(u)[1] == u[1]
  {
    assert InsertMul(u) == [u[0]] + InsertMul(u[1..]);
  }

  /** One step of the round trip anywhere else. */
  lemma UndoElsewhere(s: string)
    requires |s| >= 2 && !(IsDigit(s[0]) && IsLetter(s[1]))
    requires |s| >= 3 ==> !(IsDigit(s[0]) && s[1] == '*' && IsLetter(s[2]))
    requires RemoveMul(InsertMul(s[1..])) == s[1..]
    ensures RemoveMul(InsertMul(s)) == s
  {
    var u := s[1..];
    var t := InsertMul(u);
    assert InsertMul(s) == [s[0]] + t;
    if IsDigit(s[0]) && |t| >= 2 && t[0] == '*' {
      InsertMulSecond(u);
    }
    RemoveMulCons(s[0], t);
    assert s == [s[0]] + u;
  }

  /** Deleting the inserted `*`s gives the input back, when the input had no
      digit-star-letter of its own. */
  lemma {:induction false} RemoveMulUndoesInsertMul(s: string)
    requires NoDigitStarLetter(s)
    ensures RemoveMul(InsertMul(s)) == s
  {
    if |s| >= 2 {
      if IsDigit(s[0]) && IsLetter(s[1]) {
        NoDigitStarLetterSuffix(s, 2);
        RemoveMulUndoesInsertMul(s[2..]);
        UndoAtBoundary(s);
      } else {
        NoDigitStarLetterSuffix(s, 1);
        RemoveMulUndoesInsertMul(s[1..]);
        if |s| >= 3 {
          assert !DigitStarLetterAt(s, 0);
        }
        UndoElsewhere(s);
      }
    }
  }

  /** The text with every `*` deleted. */
  function DeleteStars(s: string): (r: string)
    ensures |r| <= |s|
    ensures forall i :: 0 <= i < |r| ==> r[i] != '*'
  {
    if s == [] then [] else (if s[0] == '*' then [] else [s[0]]) + DeleteStars(s[1..])
  }

  /** Deleting one character in front of t. */
  lemma DeleteStarsCons(c: char, t: string)
    ensures DeleteStars([c] + t) == (if c == '*' then [] else [c]) + DeleteStars(t)
  {
    assert ([c] + t)[1..] == t;
  }

  /** The pass only adds `*`: with every `*` deleted, the text before and after
      it is the same. */
  lemma {:induction false} InsertMulOnlyAddsStars(s: string)
    ensures DeleteStars(InsertMul(s)) == DeleteStars(s)
    decreases |s|
  {
    if |s| >= 2 {
      if IsDigit(s[0]) && IsLetter(s[1]) {
        InsertMulOnlyAddsStars(s[2..]);
        OnlyAddsStarsAtBoundary(s);
      } else {
        InsertMulOnlyAddsStars(s[1..]);
        OnlyAddsStarsElsewhere(s);
      }
    }
  }

  /** The boundary case: the inserted `*` is the one character deleted extra. */
  lemma OnlyAddsStarsAtBoundary(s: string)
    requires |s| >= 2 && IsDigit(s[0]) && IsLetter(s[1])
    requires DeleteStars(InsertMul(s[2..])) == DeleteStars(s[2..])
    ensures DeleteStars(InsertMul(s)) == DeleteStars(s)
  {
    var rest := InsertMul(s[2..]);
    InsertMulAtBoundary(s);
    DeleteStarsCons(s[1], rest);
    DeleteStarsCons('*', [s[1]] + rest);
    DeleteStarsCons(s[0], ['*'] + ([s[1]] + rest));
    DeleteStarsHead(s);
    DeleteStarsHead(s[1..]);
    assert s[1..][1..] == s[2..];
  }

  /** Elsewhere the first character is copied, and deleted or kept alike. */
  lemma OnlyAddsStarsElsewhere(s: string)
    requires |s| >= 2 && !(IsDigit(s[0]) && IsLetter(s[1]))
    requires DeleteStars(InsertMul(s[1..])) == DeleteStars(s[1..])
    ensures DeleteStars(InsertMul(s)) == DeleteStars(s)
  {
    InsertMulElsewhere(s);
    DeleteStarsCons(s[0], InsertMul(s[1..]));
    DeleteStarsHead(s);
  }

  /** Deletion on a non-empty text, by its first character. */
  lemma DeleteStarsHead(s: string)
    requires s != []
    ensures DeleteStars(s) == (if s[0] == '*' then [] else [s[0]]) + DeleteStars(s[1..])
  {
  }

  /** The implicit-multiplication pass is idempotent. */
  lemma InsertMulIdempotent(s: string)
    ensures InsertMul(InsertMul(s)) == InsertMul(s)
  {
    InsertMulSeparates(s);
    InsertMulIdentity(InsertMul(s));
  }

  /** `1e5` is read as a digit followed by a letter and becomes `1*e5`. */
  lemma ExponentNotationQuirk()
    ensures InsertMul("1e5") == "1*e5"
  {
  }

  // The whole pipeline

  /** trim, then `**` to `^`, then implicit multiplication. */
  function Preprocess(expr: string): (r: string)
    ensures NoDoubleStar(r)
    ensures NoDigitLetter(r)
    ensures r == [] || (!IsSpace(r[0]) && !IsSpace(r[|r| - 1]))
  {
    var p := ReplacePow(Trim(expr));
    ReplacePowLeavesNoDoubleStar(Trim(expr));
    InsertMulSeparates(p);
    InsertMulKeepsNoDoubleStar(p);
    InsertMulKeepsLast(p);
    InsertMul(p)
  }

  /** Pre-processing already pre-processed text changes nothing. */
  lemma PreprocessIdempotent(expr: string)
    ensures Preprocess(Preprocess(expr)) == Preprocess(expr)
  {
    var r := Preprocess(expr);
    assert Trim(r) == r;
    ReplacePowIdentity(r);
    InsertMulIdentity(r);
  }

  lemma TrimPadded(x: char, n: char)
    requires IsLetter(x) && IsDigit(n)
    ensures Trim([' ', x, '*', '*', n, ' ']) == [x, '*', '*', n]
  {
    var s := [' ', x, '*', '*', n, ' '];
    var u := [x, '*', '*', n, ' '];
    var p := [x, '*', '*', n];
    assert s[1..] == u;
    assert TrimStart(u) == u;
    assert TrimStart(s) == u;
    assert u[..|u| - 1] == p;
    assert TrimEnd(p) == p;
    assert TrimEnd(u) == p;
  }

  lemma ReplacePowOfVariable(x: char, n: char)
    requires IsLetter(x) && IsDigit(n)
    ensures ReplacePow([x, '*', '*', n]) == [x, '^', n]
  {
    var p := [x, '*', '*', n];
    var w := ['*', '*', n];
    assert p[1..] == w;
    assert w[2..] == [n];
    assert [n][1..] == [];
    assert ReplacePow([n]) == [n];
    assert ReplacePow(w) == "^" + [n];
    assert ReplacePow(p) == [x] + ReplacePow(w);
  }

  /** Blanks around a power of a variable are dropped and `**` becomes `^`:
      " x**2 " is read as "x^2". */
  lemma PowerOfVariable(x: char, n: char)
    requires IsLetter(x) && IsDigit(n)
    ensures Preprocess([' ', x, '*', '*', n, ' ']) == [x, '^', n]
  {
    TrimPadded(x, n);
    ReplacePowOfVariable(x, n);
    var q := [x, '^', n];
    assert !DigitLetterAt(q, 0) && !DigitLetterAt(q, 1);
    assert NoDigitLetter(q);
    InsertMulIdentity(q);
  }

  /** A coefficient written against its variable gets an explicit `*`: "2x" is read as "2*x". */
  lemma CoefficientOfVariable(c: char, x: char)
    requires IsDigit(c) && IsLetter(x)
    ensures Preprocess([c, x]) == [c, '*', x]
  {
    var s := [c, x];
    assert Trim(s) == s;
    assert s[1..] == [x];
    assert ReplacePow(s) == s;
    assert s[2..] == [];
    assert InsertMul(s) == [c, '*', x] + InsertMul([]);
  }
}
