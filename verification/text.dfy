/**
 * The few JavaScript string primitives the two hooks rely on:
 * `String.prototype.trim`, `split` on a one-character separator,
 * `Array.prototype.join` and `String.prototype.includes`.
 * Strings are `seq<char>`: sequences of Unicode scalar values.
 */
module Text {

  /** A WhiteSpace or LineTerminator code point of ECMAScript, the characters `trim` strips. */
  predicate IsWhiteSpace(c: char) {
    || c == '\t' || c == '\n' || c == '\U{B}' || c == '\U{C}' || c == '\r' || c == ' '
    || c == '\U{A0}' || c == '\U{1680}' || ('\U{2000}' <= c <= '\U{200A}')
    || c == '\U{2028}' || c == '\U{2029}' || c == '\U{202F}' || c == '\U{205F}'
    || c == '\U{3000}' || c == '\U{FEFF}'
  }

  /** `s.trimStart()`: the suffix left after dropping every leading white-space character. */
  function TrimStart(s: string): (r: string)
    ensures |r| <= |s| && r == s[|s| - |r|..]
    ensures forall k :: 0 <= k < |s| - |r| ==> IsWhiteSpace(s[k])
    ensures r == [] || !IsWhiteSpace(r[0])
  {
    if |s| > 0 && IsWhiteSpace(s[0]) then TrimStart(s[1..]) else s
  }

  /** `s.trimEnd()`: the prefix left after dropping every trailing white-space character. */
  function TrimEnd(s: string): (r: string)
    ensures |r| <= |s| && r == s[..|r|]
    ensures forall k :: |r| <= k < |s| ==> IsWhiteSpace(s[k])
    ensures r == [] || !IsWhiteSpace(r[|r| - 1])
  {
    if |s| > 0 && IsWhiteSpace(s[|s| - 1]) then TrimEnd(s[..|s| - 1]) else s
  }

  /** True when `s` neither starts nor ends with white space. */
  predicate IsTrimmed(s: string) {
    s == [] || (!IsWhiteSpace(s[0]) && !IsWhiteSpace(s[|s| - 1]))
  }

  /** `s.trim()`: `s` without its leading and trailing white space. */
  function Trim(s: string): (r: string)
    ensures IsTrimmed(r)
  {
    var t := TrimStart(s);
    var r := TrimEnd(t);
    assert IsTrimmed(r) by {
      if r != [] {
        assert r[0] == t[0];
      }
    }
    r
  }

  /** Trimming only removes characters: a character absent from `s` is absent from its trim. */
  lemma TrimKeepsOut(s: string, c: char)
    requires c !in s
    ensures c !in Trim(s)
  {
  }

  /** How many leading characters `trim` drops. */
  function Lead(s: string): nat
  {
    |s| - |TrimStart(s)|
  }

  /** The trim is the part of `s` that starts where `trimStart` stops. */
  lemma TrimIsSlice(s: string)
    ensures Lead(s) + |Trim(s)| <= |s|
    ensures Trim(s) == s[Lead(s)..Lead(s) + |Trim(s)|]
  {
    TrimIsBothEnds(s);
    PrefixOfSuffix(s, Lead(s), TrimStart(s), Trim(s));
  }

  /** A prefix `r` of the suffix `t = s[i..]` is the slice of `s` starting at `i`. */
  lemma PrefixOfSuffix(s: string, i: nat, t: string, r: string)
    requires i <= |s| && t == s[i..]
    requires |r| <= |t| && r == t[..|r|]
    ensures i + |r| <= |s| && r == s[i..i + |r|]
  {
  }

  /** Everything after the trim is white space. */
  lemma TrimDropsTrailing(s: string)
    requires Lead(s) + |Trim(s)| <= |s|
    ensures forall k :: Lead(s) + |Trim(s)| <= k < |s| ==> IsWhiteSpace(s[k])
  {
    TrimIsBothEnds(s);
    WhiteSpaceShift(s, Lead(s), |Trim(s)|, TrimStart(s));
  }

  /** White space from offset `n` of the suffix `t = s[i..]` is white space from offset `i + n` of `s`. */
  lemma WhiteSpaceShift(s: string, i: nat, n: nat, t: string)
    requires i <= |s| && t == s[i..]
    requires forall k :: n <= k < |t| ==> IsWhiteSpace(t[k])
    ensures forall k :: i + n <= k < |s| ==> IsWhiteSpace(s[k])
  {
    forall k | i + n <= k < |s|
      ensures IsWhiteSpace(s[k])
    {
      assert s[k] == t[k - i];
    }
  }

  /**
   * What `trim` removes: a run of white space at each end, nothing else.
   */
  lemma TrimStrips(s: string)
    ensures Lead(s) + |Trim(s)| <= |s|
    ensures Trim(s) == s[Lead(s)..Lead(s) + |Trim(s)|]
    ensures forall k :: 0 <= k < Lead(s) ==> IsWhiteSpace(s[k])
    ensures forall k :: Lead(s) + |Trim(s)| <= k < |s| ==> IsWhiteSpace(s[k])
  {
    TrimIsSlice(s);
    TrimDropsTrailing(s);
  }

  /** A string that is already trimmed is its own trim. */
  lemma TrimOfTrimmed(s: string)
    requires IsTrimmed(s)
    ensures Trim(s) == s
  {
    TrimIsBothEnds(s);
    TrimStartOfTrimmed(s);
    TrimEndOfTrimmed(s);
  }

  /** `trim` is `trimEnd` after `trimStart`. */
  lemma TrimIsBothEnds(s: string)
    ensures Trim(s) == TrimEnd(TrimStart(s))
  {
  }

  /** A string that starts with no white space is its own `trimStart`. */
  lemma TrimStartOfTrimmed(s: string)
    requires IsTrimmed(s)
    ensures TrimStart(s) == s
  {
  }

  /** A string that ends with no white space is its own `trimEnd`. */
  lemma TrimEndOfTrimmed(s: string)
    requires IsTrimmed(s)
    ensures TrimEnd(s) == s
  {
  }

  /** Trimming twice is trimming once. */
  lemma TrimIdempotent(s: string)
    ensures Trim(Trim(s)) == Trim(s)
  {
    TrimOfTrimmed(Trim(s));
  }

  /** A trimmed string is empty exactly when the original was all white space. */
  lemma TrimEmptyIff(s: string)
    ensures Trim(s) == [] <==> forall k :: 0 <= k < |s| ==> IsWhiteSpace(s[k])
  {
    var t := TrimStart(s);
    if Trim(s) == [] {
      assert t == [];
    }
  }

  /**
   * `s.split(d)`: the maximal `d`-free pieces of `s`, in order. There is
   * always at least one piece, possibly empty.
   */
  function Split(s: string, d: char): (parts: seq<string>)
    ensures |parts| >= 1
    ensures forall i :: 0 <= i < |parts| ==> d !in parts[i]
  {
    if |s| == 0 then [""]
    else
      var rest := Split(s[1..], d);
      if s[0] == d then [""] + rest
      else [[s[0]] + rest[0]] + rest[1..]
  }

  /** `parts.join(d)`: the pieces with one `d` between neighbours. */
  function Join(parts: seq<string>, d: char): string
  {
    if |parts| == 0 then ""
    else if |parts| == 1 then parts[0]
    else parts[0] + [d] + Join(parts[1..], d)
  }

  /** The total length of the pieces. */
  function TotalLength(parts: seq<string>): nat
  {
    if |parts| == 0 then 0 else |parts[0]| + TotalLength(parts[1..])
  }

  /** Joining adds exactly one separator between neighbouring pieces and nothing else. */
  lemma {:induction false} JoinLength(parts: seq<string>, d: char)
    requires |parts| >= 1
    ensures |Join(parts, d)| == TotalLength(parts) + |parts| - 1
    decreases |parts|
  {
    if |parts| > 1 {
      JoinLength(parts[1..], d);
    }
  }

  /** Splitting and joining back with the same separator loses nothing. */
  lemma {:induction false} JoinSplit(s: string, d: char)
    ensures Join(Split(s, d), d) == s
    decreases |s|
  {
    if |s| > 0 {
      JoinSplit(s[1..], d);
      if s[0] == d {
        assert Split(s, d) == [""] + Split(s[1..], d);
        assert s == [d] + s[1..];
      } else {
        JoinSplitExtend(s, d);
      }
    }
  }

  /** The inductive step of `JoinSplit` when the string starts with an ordinary character. */
  lemma JoinSplitExtend(s: string, d: char)
    requires |s| > 0 && s[0] != d
    requires Join(Split(s[1..], d), d) == s[1..]
    ensures Join(Split(s, d), d) == s
  {
    var rest := Split(s[1..], d);
    var parts := Split(s, d);
    assert parts == [[s[0]] + rest[0]] + rest[1..];
    if |rest| == 1 {
      assert s == [s[0]] + s[1..];
    } else {
      assert parts[0] == [s[0]] + rest[0] && parts[1..] == rest[1..];
      calc {
        Join(parts, d);
        parts[0] + [d] + Join(parts[1..], d);
        [s[0]] + (rest[0] + [d] + Join(rest[1..], d));
        [s[0]] + Join(rest, d);
        [s[0]] + s[1..];
        s;
      }
    }
  }

  /** A separator-free prefix followed by the separator becomes the first piece. */
  lemma {:induction false} SplitAfterPiece(x: string, d: char, y: string)
    requires d !in x
    ensures Split(x + [d] + y, d) == [x] + Split(y, d)
    decreases |x|
  {
    if |x| == 0 {
      assert x + [d] + y == [d] + y;
      assert ([d] + y)[1..] == y;
    } else {
      var s := x + [d] + y;
      assert s[0] == x[0] && s[1..] == x[1..] + [d] + y;
      SplitAfterPiece(x[1..], d, y);
      assert [x[0]] + x[1..] == x;
    }
  }

  /** A string without the separator splits into itself alone. */
  lemma {:induction false} SplitNoSeparator(s: string, d: char)
    requires d !in s
    ensures Split(s, d) == [s]
    decreases |s|
  {
    if |s| > 0 {
      SplitNoSeparator(s[1..], d);
      assert [s[0]] + s[1..] == s;
    }
  }

  /** Joining separator-free pieces and splitting again gives the pieces back. */
  lemma {:induction false} SplitJoin(parts: seq<string>, d: char)
    requires |parts| >= 1
    requires forall i :: 0 <= i < |parts| ==> d !in parts[i]
    ensures Split(Join(parts, d), d) == parts
    decreases |parts|
  {
    if |parts| == 1 {
      SplitNoSeparator(parts[0], d);
    } else {
      SplitJoin(parts[1..], d);
      SplitAfterPiece(parts[0], d, Join(parts[1..], d));
      assert [parts[0]] + parts[1..] == parts;
    }
  }

  /** `s.startsWith(p)`. */
  predicate StartsWith(s: string, p: string) {
    |p| <= |s| && s[..|p|] == p
  }

  /** `s.includes(sub)`: `sub` occurs somewhere in `s`. */
  predicate Includes(s: string, sub: string)
    decreases |s|
  {
    StartsWith(s, sub) || (|s| > 0 && Includes(s[1..], sub))
  }

  /** A string includes every substring found at some offset of it. */
  lemma {:induction false} IncludesAt(s: string, sub: string, i: nat)
    requires i + |sub| <= |s| && s[i..i + |sub|] == sub
    ensures Includes(s, sub)
    decreases i
  {
    if i > 0 {
      assert s[1..][i - 1..i - 1 + |sub|] == s[i..i + |sub|];
      IncludesAt(s[1..], sub, i - 1);
    }
  }

  /** `sub` occurs in `s` starting at offset `i`. */
  predicate OccursAt(s: string, sub: string, i: nat) {
    i + |sub| <= |s| && s[i..i + |sub|] == sub
  }

  /** `includes` holds exactly when `sub` occurs at some offset of `s`. */
  lemma {:induction false} IncludesIff(s: string, sub: string)
    ensures Includes(s, sub) <==> exists i: nat :: OccursAt(s, sub, i)
    decreases |s|
  {
    if exists i: nat :: OccursAt(s, sub, i) {
      var i: nat :| OccursAt(s, sub, i);
      IncludesAt(s, sub, i);
    }
    if Includes(s, sub) {
      if StartsWith(s, sub) {
        assert OccursAt(s, sub, 0);
      } else {
        IncludesIff(s[1..], sub);
        var i: nat :| OccursAt(s[1..], sub, i);
        assert s[i + 1..i + 1 + |sub|] == s[1..][i..i + |sub|];
        assert OccursAt(s, sub, i + 1);
      }
    }
  }

  /** Whatever includes `p + q` also includes `q`. */
  lemma {:induction false} IncludesSuffix(s: string, p: string, q: string)
    requires Includes(s, p + q)
    ensures Includes(s, q)
    decreases |s|
  {
    if StartsWith(s, p + q) {
      assert s[|p|..|p| + |q|] == (p + q)[|p|..];
      IncludesAt(s, q, |p|);
    } else {
      IncludesSuffix(s[1..], p, q);
    }
  }
}
