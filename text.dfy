/** The string operations the search code relies on: `trim`, `toLowerCase`,
    `includes`, `split` and `localeCompare`. */
module Text {

  /** The characters that `String.prototype.trim` strips and that the regular
      expression class `\s` matches (ASCII white space, the no-break space,
      the byte-order mark and the Unicode space separators). */
  predicate IsWhitespace(c: char) {
    c == ' ' || ('\t' <= c <= '\r') || (c >= '\U{00A0}' && IsUnicodeSpace(c))
  }

  /** The white space characters beyond ASCII. */
  predicate IsUnicodeSpace(c: char) {
    || c == '\U{00A0}' || c == '\U{1680}' || ('\U{2000}' <= c <= '\U{200A}')
    || c == '\U{2028}' || c == '\U{2029}' || c == '\U{202F}'
    || c == '\U{205F}' || c == '\U{3000}' || c == '\U{FEFF}'
  }

  predicate IsBlank(s: string) {
    forall i :: 0 <= i < |s| ==> IsWhitespace(s[i])
  }

  /** Leading white space removed (also JavaScript's `trimStart`). */
  function TrimStart(s: string): (r: string)
    ensures |r| <= |s| && r == s[|s| - |r|..]
    ensures r != [] ==> !IsWhitespace(r[0])
  {
    if s != [] && IsWhitespace(s[0]) then TrimStart(s[1..]) else s
  }

  function TrimEnd(s: string): (r: string)
    ensures |r| <= |s| && r == s[..|r|]
    ensures r != [] ==> !IsWhitespace(r[|r| - 1])
  {
    if s != [] && IsWhitespace(s[|s| - 1]) then TrimEnd(s[..|s| - 1]) else s
  }

  /** What `TrimStart` removes is white space. */
  lemma {:induction false} TrimStartDropsBlank(s: string)
    ensures IsBlank(s[..|s| - |TrimStart(s)|])
    decreases |s|
  {
    if s != [] && IsWhitespace(s[0]) {
      TrimStartDropsBlank(s[1..]);
      var k := |s| - |TrimStart(s)|;
      forall i | 0 <= i < k ensures IsWhitespace(s[..k][i]) {
        if i > 0 {
          assert s[..k][i] == s[1..][..k - 1][i - 1];
        }
      }
    }
  }

  /** What `TrimEnd` removes is white space. */
  lemma {:induction false} TrimEndDropsBlank(s: string)
    ensures IsBlank(s[|TrimEnd(s)|..])
    decreases |s|
  {
    if s != [] && IsWhitespace(s[|s| - 1]) {
      var front := s[..|s| - 1];
      TrimEndDropsBlank(front);
      var k := |TrimEnd(s)|;
      forall i | 0 <= i < |s| - k ensures IsWhitespace(s[k..][i]) {
        if k + i < |s| - 1 {
          assert s[k..][i] == front[k..][i];
        }
      }
    }
  }

  /** `s.trim()`. */
  function Trim(s: string): string {
    TrimEnd(TrimStart(s))
  }

  /** `s.trim()` is falsy exactly when `s` consists of white space only. */
  lemma {:induction false} TrimEmptyIffBlank(s: string)
    ensures Trim(s) == [] <==> IsBlank(s)
  {
    TrimStartBlank(s);
    var t := TrimStart(s);
    if t != [] {
      assert TrimEnd(t) != [] by { TrimEndKeepsNonBlank(t); }
    }
  }

  /** Trimming the start removes everything exactly for a blank text. */
  lemma TrimStartBlank(s: string)
    ensures TrimStart(s) == [] <==> IsBlank(s)
  {
    var r := TrimStart(s);
    TrimStartDropsBlank(s);
    if r == [] {
      assert s[..|s| - |r|] == s;
    } else {
      assert r[0] == s[|s| - |r|];
    }
  }

  /** Trimming the end of a text that starts with a non-white-space
      character leaves at least that character. */
  lemma TrimEndKeepsNonBlank(t: string)
    requires t != [] && !IsWhitespace(t[0])
    ensures TrimEnd(t) != []
  {
  }

  /** JavaScript's `s.length`: the number of UTF-16 code units, two for a
      character outside the Basic Multilingual Plane and one otherwise. */
  function Utf16Length(s: string): (n: nat)
    decreases |s|
  {
    if s == [] then 0
    else Utf16Length(s[..|s| - 1]) + (if s[|s| - 1] as int >= 0x1_0000 then 2 else 1)
  }

  /** The code-unit length lies between the character count and twice it,
      and equals the character count for text inside the Basic
      Multilingual Plane. */
  lemma {:induction false} Utf16LengthBounds(s: string)
    ensures |s| <= Utf16Length(s) <= 2 * |s|
    ensures (forall i :: 0 <= i < |s| ==> s[i] as int < 0x1_0000) ==> Utf16Length(s) == |s|
    decreases |s|
  {
    if s != [] {
      Utf16LengthBounds(s[..|s| - 1]);
    }
  }

  /** ASCII case folding; `toLowerCase` also folds the rest of Unicode,
      which this model leaves out. */
  function LowerChar(c: char): char {
    if 'A' <= c <= 'Z' then (c as int + 32) as char else c
  }

  /** `s.toLowerCase()`. */
  function ToLower(s: string): (r: string)
    ensures |r| == |s|
    ensures forall i :: 0 <= i < |s| ==> r[i] == LowerChar(s[i])
  {
    seq(|s|, i requires 0 <= i < |s| => LowerChar(s[i]))
  }

  /** `s.includes(t)`: `t` occurs in `s` as a contiguous piece. */
  predicate Contains(s: string, t: string)
    decreases |s|
  {
    t <= s || (s != [] && Contains(s[1..], t))
  }

  /** A copy of `t` starts at position `k` of `s`. */
  predicate OccursAt(s: string, t: string, k: int) {
    0 <= k && k + |t| <= |s| && s[k..k + |t|] == t
  }

  /** `Contains` means what it says: it holds exactly when some position of
      `s` starts a copy of `t`. */
  lemma ContainsIffOccurs(s: string, t: string)
    ensures Contains(s, t) <==> exists k :: OccursAt(s, t, k)
  {
    if Contains(s, t) {
      var k := ContainsWitness(s, t);
    }
    if exists k :: OccursAt(s, t, k) {
      var k :| OccursAt(s, t, k);
      OccursContains(s, t, k);
    }
  }

  lemma {:induction false} ContainsWitness(s: string, t: string) returns (k: int)
    requires Contains(s, t)
    ensures OccursAt(s, t, k)
    decreases |s|
  {
    if t <= s {
      k := 0;
    } else {
      var j := ContainsWitness(s[1..], t);
      assert s[1..][j..j + |t|] == s[j + 1..j + 1 + |t|];
      k := j + 1;
    }
  }

  lemma {:induction false} OccursContains(s: string, t: string, k: int)
    requires OccursAt(s, t, k)
    ensures Contains(s, t)
    decreases k
  {
    if k == 0 {
      assert t <= s;
    } else {
      assert s[1..][k - 1..k - 1 + |t|] == s[k..k + |t|];
      OccursContains(s[1..], t, k - 1);
    }
  }

  /** `s.split(sep)` for a separator that is one character out of a class:
      every separator character ends a piece, so two adjacent separators
      give an empty piece, as JavaScript's `split(' ')` does. */
  function Split(s: string, isSep: char -> bool): (pieces: seq<string>)
    ensures |pieces| >= 1
    decreases |s|
  {
    if s == [] then [[]]
    else
      var rest := Split(s[..|s| - 1], isSep);
      var c := s[|s| - 1];
      if isSep(c) then rest + [[]]
      else rest[..|rest| - 1] + [rest[|rest| - 1] + [c]]
  }

  /** `pieces.join(sep)`. */
  function Join(pieces: seq<string>, sep: char): string
    decreases |pieces|
  {
    if pieces == [] then []
    else if |pieces| == 1 then pieces[0]
    else Join(pieces[..|pieces| - 1], sep) + [sep] + pieces[|pieces| - 1]
  }

  /** No piece holds a separator, and every character of a piece is a
      character of the input. */
  lemma {:induction false} SplitPieces(s: string, isSep: char -> bool)
    ensures forall p, c :: p in Split(s, isSep) && c in p ==> !isSep(c) && c in s
    decreases |s|
  {
    if s != [] {
      var front := s[..|s| - 1];
      SplitPieces(front, isSep);
      var rest := Split(front, isSep);
      var c := s[|s| - 1];
      forall p, d | p in Split(s, isSep) && d in p ensures !isSep(d) && d in s {
        if !isSep(c) && p == rest[|rest| - 1] + [c] {
          if d != c {
            assert d in rest[|rest| - 1];
            assert d in front;
          }
        } else if p in rest {
          assert d in front;
        }
      }
    }
  }

  /** Appending a character to the last piece appends it to the join. */
  lemma JoinExtendLast(pieces: seq<string>, c: char, sep: char)
    requires |pieces| >= 1
    ensures Join(pieces[..|pieces| - 1] + [pieces[|pieces| - 1] + [c]], sep) == Join(pieces, sep) + [c]
  {
    var r := pieces[..|pieces| - 1] + [pieces[|pieces| - 1] + [c]];
    if |pieces| > 1 {
      assert r[..|r| - 1] == pieces[..|pieces| - 1];
    }
  }

  /** Every separator character of `s` replaced by `sep`. */
  function ReplaceSeparators(s: string, isSep: char -> bool, sep: char): (r: string)
    ensures |r| == |s|
    ensures forall i :: 0 <= i < |s| ==> r[i] == if isSep(s[i]) then sep else s[i]
    decreases |s|
  {
    if s == [] then []
    else
      var c := s[|s| - 1];
      ReplaceSeparators(s[..|s| - 1], isSep, sep) + [if isSep(c) then sep else c]
  }

  /** Splitting on a class of separators and joining with `sep` replaces
      each separator by `sep` and keeps every other character in place. */
  lemma {:induction false} JoinSplit(s: string, isSep: char -> bool, sep: char)
    ensures Join(Split(s, isSep), sep) == ReplaceSeparators(s, isSep, sep)
    decreases |s|
  {
    if s != [] {
      var front := s[..|s| - 1];
      var c := s[|s| - 1];
      var rest := Split(front, isSep);
      JoinSplit(front, isSep, sep);
      if isSep(c) {
        var r := rest + [[]];
        assert r[..|r| - 1] == rest;
        assert Join(r, sep) == Join(rest, sep) + [sep] + [];
      } else {
        JoinExtendLast(rest, c, sep);
      }
    }
  }

  /** Splitting on one character and joining with it gives the string back. */
  lemma JoinSplitOne(s: string, isSep: char -> bool, sep: char)
    requires forall c :: isSep(c) <==> c == sep
    ensures Join(Split(s, isSep), sep) == s
  {
    JoinSplit(s, isSep, sep);
    var r := ReplaceSeparators(s, isSep, sep);
    assert forall i :: 0 <= i < |s| ==> r[i] == s[i];
  }

  /** The total order that stands in for `localeCompare`: code-point
      lexicographic order, negative / zero / positive as the source's
      comparator expects. */
  function LexCompare(a: string, b: string): (r: int)
    ensures -1 <= r <= 1
    decreases |a|
  {
    if a == [] then (if b == [] then 0 else -1)
    else if b == [] then 1
    else if a[0] < b[0] then -1
    else if a[0] > b[0] then 1
    else LexCompare(a[1..], b[1..])
  }

  lemma {:induction false} LexCompareAntisymmetric(a: string, b: string)
    ensures LexCompare(b, a) == -LexCompare(a, b)
    ensures LexCompare(a, b) == 0 <==> a == b
    decreases |a|
  {
    if a != [] && b != [] && a[0] == b[0] {
      LexCompareAntisymmetric(a[1..], b[1..]);
      if a[1..] == b[1..] { assert a == [a[0]] + a[1..] && b == [b[0]] + b[1..]; }
    }
  }

  lemma {:induction false} LexCompareTransitive(a: string, b: string, c: string)
    requires LexCompare(a, b) <= 0 && LexCompare(b, c) <= 0
    ensures LexCompare(a, c) <= 0
    decreases |a|
  {
    if a != [] && b != [] && c != [] && a[0] == b[0] && b[0] == c[0] {
      LexCompareTransitive(a[1..], b[1..], c[1..]);
    }
  }
}
