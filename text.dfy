/** The JavaScript string operations the interaction engine relies on:
    case folding for search, substring search, `trim` and the
    parenthesis-stripping `replace` that cleans feed names. */
module JsText {

  /** `toLowerCase` on one character (ASCII letters only). */
  function LowerChar(c: char): (r: char)
    ensures 'A' <= c <= 'Z' ==> 'a' <= r <= 'z' && r as int == c as int + 32
    ensures !('A' <= c <= 'Z') ==> r == c
  {
    if 'A' <= c <= 'Z' then (c as int + 32) as char else c
  }

  /** `toLowerCase` on a string. */
  function ToLower(s: string): (r: string)
    ensures |r| == |s|
    ensures forall i :: 0 <= i < |s| ==> r[i] == LowerChar(s[i])
  {
    if s == [] then [] else [LowerChar(s[0])] + ToLower(s[1..])
  }

  /** Lower-casing a second time changes nothing. */
  lemma ToLowerIdempotent(s: string)
    ensures ToLower(ToLower(s)) == ToLower(s)
  {
    var once := ToLower(s);
    assert forall i :: 0 <= i < |once| ==> LowerChar(once[i]) == once[i];
  }

  /** `needle` occurs in `hay` starting at position `i`. */
  predicate OccursAt(hay: string, needle: string, i: nat)
  {
    i + |needle| <= |hay| && hay[i..i + |needle|] == needle
  }

  /** `hay.includes(needle)`: the empty needle occurs in every string. */
  function Includes(hay: string, needle: string): bool
    decreases |hay|
  {
    if |needle| > |hay| then false
    else if hay[..|needle|] == needle then true
    else Includes(hay[1..], needle)
  }

  /** `Includes` holds exactly when the needle occurs at some position. */
  lemma {:induction false} IncludesIff(hay: string, needle: string)
    ensures Includes(hay, needle) <==> exists i: nat :: OccursAt(hay, needle, i)
    decreases |hay|
  {
    if |needle| > |hay| {
      forall i: nat ensures !OccursAt(hay, needle, i) { }
    } else if hay[..|needle|] == needle {
      assert OccursAt(hay, needle, 0);
    } else {
      IncludesIff(hay[1..], needle);
      if Includes(hay[1..], needle) {
        var i: nat :| OccursAt(hay[1..], needle, i);
        assert hay[i + 1..i + 1 + |needle|] == hay[1..][i..i + |needle|];
        assert OccursAt(hay, needle, i + 1);
      } else {
        forall i: nat | OccursAt(hay, needle, i) ensures false {
          if i > 0 {
            assert hay[1..][i - 1..i - 1 + |needle|] == hay[i..i + |needle|];
            assert OccursAt(hay[1..], needle, i - 1);
          }
        }
      }
    }
  }

  /** The characters `trim` removes: the ECMAScript WhiteSpace and
      LineTerminator code points. */
  predicate IsJsSpace(c: char)
  {
    c == '\t' || c == '\n' || c == '\U{000B}' || c == '\U{000C}' || c == '\r' || c == ' '
    || c == '\U{00A0}' || c == '\U{1680}' || ('\U{2000}' <= c <= '\U{200A}')
    || c == '\U{2028}' || c == '\U{2029}' || c == '\U{202F}' || c == '\U{205F}'
    || c == '\U{3000}' || c == '\U{FEFF}'
  }

  predicate AllSpace(s: string)
  {
    forall i :: 0 <= i < |s| ==> IsJsSpace(s[i])
  }

  /** Neither end of `s` is white space. */
  predicate Trimmed(s: string)
  {
    s == [] || (!IsJsSpace(s[0]) && !IsJsSpace(s[|s| - 1]))
  }

  /** Drops leading white space: what is dropped is all white space and the
      rest starts with a non-space. */
  function TrimStart(s: string): (r: string)
    ensures |r| <= |s| && r == s[|s| - |r|..]
    ensures AllSpace(s[..|s| - |r|])
    ensures r == [] || !IsJsSpace(r[0])
  {
    if |s| > 0 && IsJsSpace(s[0]) then TrimStart(s[1..]) else s
  }

  /** Drops trailing white space. */
  function TrimEnd(s: string): (r: string)
    ensures |r| <= |s| && r == s[..|r|]
    ensures AllSpace(s[|r|..])
    ensures r == [] || !IsJsSpace(r[|r| - 1])
  {
    if |s| > 0 && IsJsSpace(s[|s| - 1]) then
      var t := s[..|s| - 1];
      var r := TrimEnd(t);
      assert s[|r|..] == t[|r|..] + [s[|s| - 1]];
      r
    else s
  }

  /** `s.trim()`: the result is a slice of `s`, only white space is cut
      off either end, and neither end of the result is white space. */
  function Trim(s: string): (r: string)
    ensures exists i, j :: 0 <= i <= j <= |s| && r == s[i..j] && AllSpace(s[..i]) && AllSpace(s[j..])
    ensures Trimmed(r)
  {
    var front := TrimStart(s);
    var r := TrimEnd(front);
    var i := |s| - |front|;
    TrimWitness(s, front, r, i);
    r
  }

  /** A string without white space at either end is left alone by `trim`. */
  lemma TrimOfTrimmed(s: string)
    requires Trimmed(s)
    ensures Trim(s) == s
  {
  }

  predicate NoParens(s: string)
  {
    '(' !in s && ')' !in s
  }

  /** `s.replace(/[()]/g, '')`: the parentheses are removed and every other
      character is kept, in order. */
  function RemoveParens(s: string): (r: string)
    ensures NoParens(r)
    ensures forall c :: c in r <==> c in s && c != '(' && c != ')'
    ensures |r| <= |s|
  {
    if s == [] then []
    else if s[0] == '(' || s[0] == ')' then RemoveParens(s[1..])
    else [s[0]] + RemoveParens(s[1..])
  }

  /** Every other character is kept once and in place: removal works
      character by character, and a string splits into parts that are
      cleaned independently and re-joined in order. */
  lemma RemoveParensOne(c: char)
    ensures RemoveParens([c]) == if c == '(' || c == ')' then [] else [c]
  {
    assert [c][1..] == [];
  }

  lemma {:induction false} RemoveParensAppend(a: string, b: string)
    ensures RemoveParens(a + b) == RemoveParens(a) + RemoveParens(b)
  {
    if a == [] {
      assert a + b == b;
    } else {
      assert (a + b)[0] == a[0];
      assert (a + b)[1..] == a[1..] + b;
      RemoveParensAppend(a[1..], b);
    }
  }

  /** Removing parentheses from a string that has none changes nothing. */
  lemma {:induction false} RemoveParensOfClean(s: string)
    requires NoParens(s)
    ensures RemoveParens(s) == s
  {
    if s != [] {
      assert s[0] in s;
      assert forall c :: c in s[1..] ==> c in s;
      RemoveParensOfClean(s[1..]);
    }
  }

  /** The slice bounds `Trim` returns: what `TrimStart` dropped before,
      what `TrimEnd` dropped after. */
  lemma TrimWitness(s: string, front: string, r: string, i: nat)
    requires i == |s| - |front| && front == s[i..] && AllSpace(s[..i])
    requires |r| <= |front| && r == front[..|r|] && AllSpace(front[|r|..])
    ensures i + |r| <= |s| && r == s[i..i + |r|] && AllSpace(s[..i]) && AllSpace(s[i + |r|..])
  {
    assert s[i + |r|..] == front[|r|..];
  }

  /** Trimming keeps a character only if the input had it. */
  lemma TrimKeepsCharacters(s: string)
    ensures forall c :: c in Trim(s) ==> c in s
  {
    var i, j :| 0 <= i <= j <= |s| && Trim(s) == s[i..j];
    SliceKeepsCharacters(s, i, j);
  }

  lemma SliceKeepsCharacters(s: string, i: nat, j: nat)
    requires i <= j <= |s|
    ensures forall c :: c in s[i..j] ==> c in s
  {
    forall c | c in s[i..j] ensures c in s {
      var k :| 0 <= k < j - i && s[i..j][k] == c;
      assert s[i + k] == c;
    }
  }

  /** `neo.name.replace(/[()]/g, '').trim()`. */
  function CleanName(raw: string): (r: string)
    ensures NoParens(r)
    ensures Trimmed(r)
    ensures |r| <= |raw|
  {
    var bare := RemoveParens(raw);
    var r := Trim(bare);
    TrimKeepsCharacters(bare);
    r
  }

  /** Cleaning a clean name changes nothing. */
  lemma {:induction false} CleanNameIdempotent(raw: string)
    ensures CleanName(CleanName(raw)) == CleanName(raw)
  {
    var once := CleanName(raw);
    RemoveParensOfClean(once);
    TrimOfTrimmed(once);
  }
}
