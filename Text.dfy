/** The three string operations the directory's search is built from:
    `toLowerCase` (restricted to ASCII letters), `trim` and `includes`,
    as JavaScript's String.prototype defines them. */
module Text {

  /** A JavaScript WhiteSpace or LineTerminator code point: the set `trim` strips. */
  predicate IsSpace(c: char)
  {
    c == '\t' || c == '\n' || c == '\U{000B}' || c == '\U{000C}' || c == '\r' || c == ' ' ||
    c == '\U{00A0}' || c == '\U{1680}' || ('\U{2000}' <= c <= '\U{200A}') ||
    c == '\U{2028}' || c == '\U{2029}' || c == '\U{202F}' || c == '\U{205F}' ||
    c == '\U{3000}' || c == '\U{FEFF}'
  }

  predicate IsUpper(c: char)
  {
    'A' <= c <= 'Z'
  }

  function LowerChar(c: char): char
  {
    if IsUpper(c) then (c as int + 32) as char else c
  }

  /** `s.toLowerCase()` on ASCII letters: every upper-case letter becomes its
      lower-case partner, every other character stays. */
  function Lower(s: string): (r: string)
    ensures |r| == |s|
    ensures forall i :: 0 <= i < |s| ==> !IsUpper(r[i])
    ensures forall i :: 0 <= i < |s| && IsUpper(s[i]) ==> r[i] as int == s[i] as int + 32
    ensures forall i :: 0 <= i < |s| && !IsUpper(s[i]) ==> r[i] == s[i]
  {
    if s == [] then [] else [LowerChar(s[0])] + Lower(s[1..])
  }

  /** Lowering never turns a space into a non-space or the other way round. */
  lemma LowerKeepsSpaces(s: string)
    ensures forall i :: 0 <= i < |s| ==> (IsSpace(Lower(s)[i]) <==> IsSpace(s[i]))
  {
  }

  function TrimStart(s: string): string
  {
    if s != [] && IsSpace(s[0]) then TrimStart(s[1..]) else s
  }

  function TrimEnd(s: string): string
  {
    if s != [] && IsSpace(s[|s| - 1]) then TrimEnd(s[..|s| - 1]) else s
  }

  /** `s.trim()`: strips leading and trailing white space, so the result
      is never longer than `s`; `TrimSpec` says exactly what it keeps. */
  function Trim(s: string): (r: string)
    ensures |r| <= |s|
  {
    TrimStartSuffix(s);
    TrimEndPrefix(TrimStart(s));
    TrimEnd(TrimStart(s))
  }

  /** TrimStart keeps a suffix of `s` that is empty or starts with a
      character other than white space. */
  lemma {:induction false} TrimStartSuffix(s: string)
    ensures var r := TrimStart(s);
      |r| <= |s| && r == s[|s| - |r|..] && (r != [] ==> !IsSpace(r[0]))
  {
    if s != [] && IsSpace(s[0]) {
      TrimStartSuffix(s[1..]);
    }
  }

  /** Everything TrimStart removes is white space. */
  lemma {:induction false} TrimStartDropsSpaces(s: string, i: int)
    requires 0 <= i < |s| - |TrimStart(s)|
    ensures IsSpace(s[i])
  {
    if i > 0 {
      TrimStartDropsSpaces(s[1..], i - 1);
    }
  }

  /** TrimEnd keeps a prefix of `s` that is empty or ends with a character
      other than white space. */
  lemma {:induction false} TrimEndPrefix(s: string)
    ensures var r := TrimEnd(s);
      |r| <= |s| && r == s[..|r|] && (r != [] ==> !IsSpace(r[|r| - 1]))
  {
    if s != [] && IsSpace(s[|s| - 1]) {
      TrimEndPrefix(s[..|s| - 1]);
    }
  }

  /** Everything TrimEnd removes is white space. */
  lemma {:induction false} TrimEndDropsSpaces(s: string, i: int)
    requires |TrimEnd(s)| <= i < |s|
    ensures IsSpace(s[i])
  {
    if i < |s| - 1 {
      TrimEndDropsSpaces(s[..|s| - 1], i);
    }
  }

  /** Every character of `s` outside `s[i..j]` is white space. */
  predicate SpaceOutside(s: string, i: int, j: int)
  {
    forall k :: 0 <= k < |s| && (k < i || j <= k) ==> IsSpace(s[k])
  }

  /** Trim keeps the slice between the white space it removes at the front
      and the white space it removes at the back. */
  lemma TrimIsSlice(s: string)
    ensures exists i, j :: 0 <= i <= j <= |s| && Trim(s) == s[i..j] && SpaceOutside(s, i, j)
  {
    var t := TrimStart(s);
    var r := TrimEnd(t);
    TrimStartSuffix(s);
    TrimEndPrefix(t);
    var i, j := |s| - |t|, |s| - |t| + |r|;
    assert r == s[i..j];
    forall k | 0 <= k < i
      ensures IsSpace(s[k])
    {
      TrimStartDropsSpaces(s, k);
    }
    forall k | j <= k < |s|
      ensures IsSpace(s[k])
    {
      TrimEndDropsSpaces(t, k - i);
      assert t[k - i] == s[k];
    }
    assert SpaceOutside(s, i, j);
  }

  /** What `trim` promises: the result is the slice `s[i..j]` left after
      removing white space only from the front and the back, is empty
      exactly when `s` is all white space, never starts or ends with white
      space, and is `s` itself when `s` has none at either end. */
  lemma TrimSpec(s: string)
    ensures var r := Trim(s);
      && (exists i, j :: 0 <= i <= j <= |s| && r == s[i..j] && SpaceOutside(s, i, j))
      && (r == [] <==> forall i :: 0 <= i < |s| ==> IsSpace(s[i]))
      && (r != [] ==> !IsSpace(r[0]) && !IsSpace(r[|r| - 1]))
      && ((s == [] || (!IsSpace(s[0]) && !IsSpace(s[|s| - 1]))) ==> r == s)
  {
    var t := TrimStart(s);
    var r := TrimEnd(t);
    TrimStartSuffix(s);
    TrimEndPrefix(t);
    TrimIsSlice(s);
    if r == [] {
      forall i | 0 <= i < |s|
        ensures IsSpace(s[i])
      {
        if t != [] {
          TrimEndDropsSpaces(t, 0);
        }
        TrimStartDropsSpaces(s, i);
      }
    } else {
      assert r[0] == t[0];
    }
    if s != [] && !IsSpace(s[0]) && !IsSpace(s[|s| - 1]) {
      assert t == s;
    }
  }

  /** `t` occurs in `s` as a contiguous block starting at index `i`. */
  ghost predicate OccursAt(t: string, s: string, i: int)
  {
    0 <= i && i + |t| <= |s| && s[i..i + |t|] == t
  }

  /** `t` occurs in `s` as a contiguous block somewhere. */
  ghost predicate Occurs(t: string, s: string)
  {
    exists i :: OccursAt(t, s, i)
  }

  /** `s.includes(t)`: tries every start position from the left. A term
      longer than the string is never included and the empty term always
      is; `IncludesIsOccurs` says exactly when the answer is true. */
  function Includes(s: string, t: string): (b: bool)
    ensures b ==> |t| <= |s|
    ensures t == [] ==> b
    decreases |s|
  {
    if |t| > |s| then false
    else if s[..|t|] == t then true
    else Includes(s[1..], t)
  }

  /** An occurrence in the tail of `s` is an occurrence in `s` one place later. */
  lemma OccursInTail(t: string, s: string, i: int)
    requires s != [] && 0 <= i
    ensures OccursAt(t, s[1..], i) <==> OccursAt(t, s, i + 1)
  {
    if 0 <= i && i + |t| <= |s| - 1 {
      assert s[1..][i..i + |t|] == s[i + 1..i + 1 + |t|];
    }
  }

  /** `includes` answers true exactly when the term occurs in the string. */
  lemma {:induction false} IncludesIsOccurs(s: string, t: string)
    ensures Includes(s, t) <==> Occurs(t, s)
    decreases |s|
  {
    if |t| > |s| {
    } else if s[..|t|] == t {
      assert OccursAt(t, s, 0);
    } else {
      IncludesIsOccurs(s[1..], t);
      assert Includes(s, t) == Includes(s[1..], t);
      if Occurs(t, s) {
        var i :| OccursAt(t, s, i);
        assert !OccursAt(t, s, 0);
        OccursInTail(t, s, i - 1);
        assert Occurs(t, s[1..]);
      }
      if Occurs(t, s[1..]) {
        var i :| OccursAt(t, s[1..], i);
        OccursInTail(t, s, i);
        assert Occurs(t, s);
      }
    }
  }

  /** A term whose first character appears nowhere in the string is not included in it. */
  lemma AbsentFirstCharNotIncluded(s: string, t: string)
    requires t != [] && t[0] !in s
    ensures !Includes(s, t)
  {
    IncludesIsOccurs(s, t);
  }

  /** Every string includes the empty string. */
  lemma IncludesEmpty(s: string)
    ensures Includes(s, "")
  {
  }
}
