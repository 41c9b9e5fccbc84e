/** Answer normalisation (src/utils/normalize.ts): case-fold for Turkish,
    trim, drop a fixed punctuation set, then replace every run of two or
    more whitespace characters by one space. */
module Normalize {
  import opened Base

  /** The ECMAScript WhiteSpace and LineTerminator characters: the set both
      `String.prototype.trim` and the regular-expression class `\s` use. */
  predicate IsSpace(c: char) {
    || c == ' ' || c == '\t' || c == '\n' || c == '\r'
    || c == '\U{000B}' || c == '\U{000C}' || c == '\U{00A0}' || c == '\U{1680}'
    || ('\U{2000}' <= c <= '\U{200A}')
    || c == '\U{2028}' || c == '\U{2029}' || c == '\U{202F}' || c == '\U{205F}'
    || c == '\U{3000}' || c == '\U{FEFF}'
  }

  /** The characters of the class `[.,\/#!$%^&*;:{}=\-_`~()]`. */
  predicate IsPunct(c: char) {
    || c == '.' || c == ',' || c == '/' || c == '#' || c == '!' || c == '$' || c == '%'
    || c == '^' || c == '&' || c == '*' || c == ';' || c == ':' || c == '{' || c == '}'
    || c == '=' || c == '-' || c == '_' || c == '`' || c == '~' || c == '(' || c == ')'
  }

  /** Lower-case mapping of the Turkish locale, restricted to Basic Latin,
      the Latin-1 capitals and the Turkish letters outside Latin-1:
      `I` becomes dotless `ı`, `İ` becomes `i`, `Ğ` and `Ş` their small
      forms; every other character is left as it is. */
  function Lower(c: char): char {
    if c == 'I' then '\U{0131}'
    else if 'A' <= c <= 'Z' then (c as int + 32) as char
    else if '\U{00C0}' <= c <= '\U{00DE}' && c != '\U{00D7}' then (c as int + 32) as char
    else if c == '\U{0130}' then 'i'
    else if c == '\U{011E}' || c == '\U{015E}' then (c as int + 1) as char
    else c
  }

  /** Folding twice is folding once, and folding never changes whether a
      character is whitespace or punctuation. */
  lemma LowerProperties(c: char)
    ensures Lower(Lower(c)) == Lower(c)
    ensures IsSpace(Lower(c)) <==> IsSpace(c)
    ensures IsPunct(Lower(c)) <==> IsPunct(c)
  {
  }

  predicate NoPunct(s: string) {
    forall i :: 0 <= i < |s| ==> !IsPunct(s[i])
  }

  /** No two adjacent characters are both whitespace. */
  predicate NoDoubleSpace(s: string) {
    forall i :: 0 <= i < |s| - 1 ==> !(IsSpace(s[i]) && IsSpace(s[i + 1]))
  }

  /** Neither end of `s` is whitespace. */
  predicate Trimmed(s: string) {
    |s| > 0 ==> !IsSpace(s[0]) && !IsSpace(s[|s| - 1])
  }

  /** Every character is already in folded form. */
  predicate Folded(s: string) {
    forall i :: 0 <= i < |s| ==> Lower(s[i]) == s[i]
  }

  /** A character that survives normalisation unchanged: neither
      whitespace nor punctuation. */
  predicate Significant(c: char) {
    !IsSpace(c) && !IsPunct(c)
  }

  /** The significant characters of `s`, in order (reference definition). */
  function Sig(s: string): string {
    if |s| == 0 then []
    else (if Significant(s[0]) then [s[0]] else []) + Sig(s[1..])
  }

  // ---------------------------------------------------------------------
  // The four steps

  /** `toLocaleLowerCase('tr-TR')`, character by character. */
  function Fold(s: string): (r: string)
    ensures |r| == |s|
    ensures forall i :: 0 <= i < |s| ==> r[i] == Lower(s[i])
  {
    if |s| == 0 then [] else [Lower(s[0])] + Fold(s[1..])
  }

  /** Every character of `s` is whitespace. */
  predicate AllSpace(s: string) {
    forall i :: 0 <= i < |s| ==> IsSpace(s[i])
  }

  /** Drops leading whitespace. */
  function TrimStart(s: string): string {
    if |s| > 0 && IsSpace(s[0]) then TrimStart(s[1..]) else s
  }

  /** Drops trailing whitespace. */
  function TrimEnd(s: string): string {
    if |s| > 0 && IsSpace(s[|s| - 1]) then TrimEnd(s[..|s| - 1]) else s
  }

  /** `String.prototype.trim`. */
  function Trim(s: string): string {
    TrimEnd(TrimStart(s))
  }

  /** `.replace(/[.,\/#!$%^&*;:{}=\-_`~()]/g, "")`. */
  function StripPunct(s: string): string {
    if |s| == 0 then []
    else (if IsPunct(s[0]) then [] else [s[0]]) + StripPunct(s[1..])
  }

  /** Length of the whitespace run at the front of `s`. */
  function SpaceRun(s: string): (n: nat)
    ensures n <= |s|
  {
    if |s| > 0 && IsSpace(s[0]) then 1 + SpaceRun(s[1..]) else 0
  }

  /** `.replace(/\s{2,}/g, " ")`: scanning left to right, a maximal run of
      at least two whitespace characters becomes one space; a single
      whitespace character is kept as it is. */
  function Collapse(s: string): string
    decreases |s|
  {
    if |s| == 0 then []
    else
      var n := SpaceRun(s);
      if n >= 2 then [' '] + Collapse(s[n..])
      else [s[0]] + Collapse(s[1..])
  }

  /** `normalizeAnswer`. */
  function NormalizeAnswer(text: string): string {
    Collapse(StripPunct(Trim(Fold(text))))
  }

  // ---------------------------------------------------------------------
  // What each step produces

  /** `TrimStart(s)` is the longest suffix of `s` that does not start with
      whitespace. */
  lemma {:induction false} TrimStartShape(s: string)
    ensures var r := TrimStart(s);
      && |r| <= |s| && r == s[|s| - |r|..]
      && AllSpace(s[..|s| - |r|])
      && (|r| > 0 ==> !IsSpace(r[0]))
    decreases |s|
  {
    if |s| > 0 && IsSpace(s[0]) {
      TrimStartShape(s[1..]);
      var r := TrimStart(s[1..]);
      assert s[1..][|s| - 1 - |r|..] == s[|s| - |r|..];
      assert s[..|s| - |r|] == [s[0]] + s[1..][..|s| - 1 - |r|];
    }
  }

  /** `TrimEnd(s)` is the longest prefix of `s` that does not end with
      whitespace. */
  lemma {:induction false} TrimEndShape(s: string)
    ensures var r := TrimEnd(s);
      && |r| <= |s| && r == s[..|r|]
      && AllSpace(s[|r|..])
      && (|r| > 0 ==> !IsSpace(r[|r| - 1]))
    decreases |s|
  {
    if |s| > 0 && IsSpace(s[|s| - 1]) {
      TrimEndShape(s[..|s| - 1]);
      var r := TrimEnd(s[..|s| - 1]);
      assert s[..|s| - 1][..|r|] == s[..|r|];
      assert s[|r|..] == s[..|s| - 1][|r|..] + [s[|s| - 1]];
    }
  }

  /** `Trim(s)` is the block of `s` that starts after the leading
      whitespace; it has whitespace at neither end and only whitespace
      around it. */
  lemma TrimShape(s: string)
    ensures |TrimStart(s)| <= |s|
    ensures var r := Trim(s);
      var k := |s| - |TrimStart(s)|;
      && Trimmed(r)
      && k + |r| <= |s| && r == s[k..k + |r|]
      && AllSpace(s[..k]) && AllSpace(s[k + |r|..])
  {
    var t := TrimStart(s);
    TrimStartShape(s);
    TrimEndShape(t);
    var r := TrimEnd(t);
    var k := |s| - |t|;
    assert r == s[k..k + |r|];
    assert s[k + |r|..] == t[|r|..];
    if |r| > 0 {
      assert r[0] == t[0];
    }
  }

  /** No punctuation is left, and nothing is added. */
  lemma {:induction false} StripPunctShape(s: string)
    ensures NoPunct(StripPunct(s)) && |StripPunct(s)| <= |s|
    decreases |s|
  {
    if |s| > 0 {
      StripPunctShape(s[1..]);
    }
  }

  /** The run is whitespace and ends at the first other character. */
  lemma {:induction false} SpaceRunShape(s: string)
    ensures var n := SpaceRun(s);
      AllSpace(s[..n]) && (n < |s| ==> !IsSpace(s[n]))
    decreases |s|
  {
    if |s| > 0 && IsSpace(s[0]) {
      SpaceRunShape(s[1..]);
      assert s[..SpaceRun(s)] == [s[0]] + s[1..][..SpaceRun(s[1..])];
    }
  }

  /** Putting a character in front of `rest` keeps its shape, as long as
      a whitespace character is not put in front of another. */
  lemma ConsKeepsShape(c: char, rest: string)
    requires NoDoubleSpace(rest)
    requires IsSpace(c) && |rest| > 0 ==> !IsSpace(rest[0])
    ensures NoDoubleSpace([c] + rest)
  {
    var r := [c] + rest;
    forall i | 1 <= i < |r| - 1
      ensures !(IsSpace(r[i]) && IsSpace(r[i + 1]))
    {
      assert r[i] == rest[i - 1] && r[i + 1] == rest[i];
    }
  }

  /** Collapsing never lengthens, leaves no two whitespace characters side
      by side, and keeps whether the first character is whitespace. */
  lemma {:induction false} CollapseFront(s: string)
    ensures var r := Collapse(s);
      && |r| <= |s| && NoDoubleSpace(r)
      && (|s| > 0 ==> |r| > 0 && (IsSpace(r[0]) <==> IsSpace(s[0])))
    decreases |s|
  {
    if |s| > 0 {
      var n := SpaceRun(s);
      SpaceRunShape(s);
      if n >= 2 {
        CollapseFront(s[n..]);
        ConsKeepsShape(' ', Collapse(s[n..]));
      } else {
        CollapseFront(s[1..]);
        if IsSpace(s[0]) && |s| > 1 {
          assert s[..1][0] == s[0];
        }
        ConsKeepsShape(s[0], Collapse(s[1..]));
      }
    }
  }

  /** A last character that is not whitespace stays the last character. */
  lemma {:induction false} CollapseKeepsLast(s: string)
    requires |s| > 0 && !IsSpace(s[|s| - 1])
    ensures |Collapse(s)| > 0 && Collapse(s)[|Collapse(s)| - 1] == s[|s| - 1]
    decreases |s|
  {
    var n := SpaceRun(s);
    SpaceRunShape(s);
    var c: char, rest := if n >= 2 then ' ' else s[0], if n >= 2 then s[n..] else s[1..];
    assert Collapse(s) == [c] + Collapse(rest);
    if |rest| > 0 {
      assert rest[|rest| - 1] == s[|s| - 1];
      CollapseKeepsLast(rest);
    }
  }

  /** Collapsing adds no punctuation. */
  lemma {:induction false} CollapseKeepsNoPunct(s: string)
    requires NoPunct(s)
    ensures NoPunct(Collapse(s))
    decreases |s|
  {
    if |s| > 0 {
      var n := SpaceRun(s);
      var rest := if n >= 2 then s[n..] else s[1..];
      assert NoPunct(rest);
      CollapseKeepsNoPunct(rest);
      var c: char := if n >= 2 then ' ' else s[0];
      assert Collapse(s) == [c] + Collapse(rest);
      assert forall i :: 1 <= i < |Collapse(s)| ==> Collapse(s)[i] == Collapse(rest)[i - 1];
    }
  }

  // ---------------------------------------------------------------------
  // Words: the maximal blocks without whitespace (reference definition)

  /** Length of the non-whitespace block at the front of `s`. */
  function WordLen(s: string): (n: nat)
    ensures n <= |s|
  {
    if |s| > 0 && !IsSpace(s[0]) then 1 + WordLen(s[1..]) else 0
  }

  /** The words of `s`: its maximal blocks of non-whitespace characters,
      in order. */
  function Words(s: string): seq<string>
    decreases |s|
  {
    if |s| == 0 then []
    else if IsSpace(s[0]) then Words(s[1..])
    else
      var n := WordLen(s);
      [s[..n]] + Words(s[n..])
  }

  /** The front block is whitespace-free and ends at whitespace or the
      end of the string. */
  lemma {:induction false} WordLenShape(s: string)
    ensures var n := WordLen(s);
      && (forall i :: 0 <= i < n ==> !IsSpace(s[i]))
      && (n < |s| ==> IsSpace(s[n]))
    decreases |s|
  {
    if |s| > 0 && !IsSpace(s[0]) {
      WordLenShape(s[1..]);
      forall i | 0 <= i < WordLen(s)
        ensures !IsSpace(s[i])
      {
        if i > 0 {
          assert s[i] == s[1..][i - 1];
        }
      }
    }
  }

  /** Leading whitespace contributes no word. */
  lemma {:induction false} WordsDropSpace(s: string, k: nat)
    requires k <= |s| && AllSpace(s[..k])
    ensures Words(s) == Words(s[k..])
    decreases k
  {
    if k > 0 {
      assert s[..k][0] == s[0];
      var t := s[1..][..k - 1];
      assert AllSpace(t) by {
        forall i | 0 <= i < |t|
          ensures IsSpace(t[i])
        {
          assert t[i] == s[..k][i + 1];
        }
      }
      WordsDropSpace(s[1..], k - 1);
      assert s[1..][k - 1..] == s[k..];
    }
  }

  lemma {:induction false} WordLenOfWord(w: string, y: string)
    requires forall i :: 0 <= i < |w| ==> !IsSpace(w[i])
    requires |y| == 0 || IsSpace(y[0])
    ensures WordLen(w + y) == |w|
    decreases |w|
  {
    if |w| > 0 {
      assert (w + y)[0] == w[0];
      assert (w + y)[1..] == w[1..] + y;
      WordLenOfWord(w[1..], y);
    } else {
      assert w + y == y;
    }
  }

  /** A whitespace-free block followed by whitespace or nothing is one
      word. */
  lemma WordsCons(w: string, y: string)
    requires |w| > 0 && forall i :: 0 <= i < |w| ==> !IsSpace(w[i])
    requires |y| == 0 || IsSpace(y[0])
    ensures Words(w + y) == [w] + Words(y)
  {
    WordLenOfWord(w, y);
    assert (w + y)[0] == w[0];
    assert (w + y)[..|w|] == w;
    assert (w + y)[|w|..] == y;
  }

  /** Collapsing passes a whitespace-free block through unchanged. */
  lemma {:induction false} CollapseWord(s: string, m: nat)
    requires m <= |s| && forall i :: 0 <= i < m ==> !IsSpace(s[i])
    ensures Collapse(s) == s[..m] + Collapse(s[m..])
    decreases m
  {
    if m > 0 {
      assert SpaceRun(s) == 0;
      assert Collapse(s) == [s[0]] + Collapse(s[1..]);
      forall i | 0 <= i < m - 1
        ensures !IsSpace(s[1..][i])
      {
        assert s[1..][i] == s[i + 1];
      }
      CollapseWord(s[1..], m - 1);
      assert s[1..][m - 1..] == s[m..];
      assert s[..m] == [s[0]] + s[1..][..m - 1];
    }
  }

  /** Collapsing keeps the words of the text, in order: no two words are
      glued together and none is split or altered. */
  lemma {:induction false} CollapseKeepsWords(s: string)
    ensures Words(Collapse(s)) == Words(s)
    decreases |s|
  {
    if |s| > 0 {
      if IsSpace(s[0]) {
        var n := SpaceRun(s);
        SpaceRunShape(s);
        var c: char, k := if n >= 2 then ' ' else s[0], if n >= 2 then n else 1;
        assert Collapse(s) == [c] + Collapse(s[k..]);
        assert ([c] + Collapse(s[k..]))[1..] == Collapse(s[k..]);
        CollapseKeepsWords(s[k..]);
        assert AllSpace(s[..k]) by {
          assert forall i :: 0 <= i < k ==> s[..k][i] == s[..n][i];
        }
        WordsDropSpace(s, k);
      } else {
        var m := WordLen(s);
        WordLenShape(s);
        CollapseWord(s, m);
        var y := Collapse(s[m..]);
        if m < |s| {
          CollapseFront(s[m..]);
        }
        WordsCons(s[..m], y);
        CollapseKeepsWords(s[m..]);
      }
    }
  }

  /** The collapse facts together: no growth, every whitespace run of the
      result a single character, the words kept in order, the ends kept. */
  lemma CollapseShape(s: string)
    ensures var r := Collapse(s);
      && |r| <= |s|
      && NoDoubleSpace(r)
      && Words(r) == Words(s)
      && (|s| > 0 ==> |r| > 0 && (IsSpace(r[0]) <==> IsSpace(s[0])))
      && (|s| > 0 && !IsSpace(s[|s| - 1]) ==> r[|r| - 1] == s[|s| - 1])
      && (NoPunct(s) ==> NoPunct(r))
  {
    CollapseFront(s);
    CollapseKeepsWords(s);
    if |s| > 0 && !IsSpace(s[|s| - 1]) {
      CollapseKeepsLast(s);
    }
    if NoPunct(s) {
      CollapseKeepsNoPunct(s);
    }
  }

  /** The normal form has no punctuation, no two whitespace characters
      side by side, and is never longer than the trimmed input. */
  lemma NormalizeShape(text: string)
    ensures var r := NormalizeAnswer(text);
      && NoPunct(r) && NoDoubleSpace(r)
      && |r| <= |Trim(Fold(text))| <= |text|
      && (|text| == 0 ==> r == [])
  {
    var t := Trim(Fold(text));
    TrimShape(Fold(text));
    StripPunctShape(t);
    CollapseShape(StripPunct(t));
  }

  // ---------------------------------------------------------------------
  // Significant characters are carried through every step

  lemma {:induction false} SigAppend(a: string, b: string)
    ensures Sig(a + b) == Sig(a) + Sig(b)
    decreases |a|
  {
    if |a| == 0 {
      assert a + b == b;
    } else {
      var head := if Significant(a[0]) then [a[0]] else [];
      assert (a + b)[0] == a[0];
      assert (a + b)[1..] == a[1..] + b;
      assert Sig(a + b) == head + Sig(a[1..] + b);
      SigAppend(a[1..], b);
      assert Sig(a) == head + Sig(a[1..]);
    }
  }

  lemma {:induction false} SigOfSpaces(s: string)
    requires AllSpace(s)
    ensures Sig(s) == []
    decreases |s|
  {
    if |s| > 0 {
      SigOfSpaces(s[1..]);
    }
  }

  /** Whitespace around a block contributes no significant characters. */
  lemma SigDropsSurroundingSpace(s: string, k: nat, n: nat)
    requires k + n <= |s|
    requires AllSpace(s[..k]) && AllSpace(s[k + n..])
    ensures Sig(s[k..k + n]) == Sig(s)
  {
    var lead, mid, trail := s[..k], s[k..k + n], s[k + n..];
    assert s[..k + n] == lead + mid;
    assert s == s[..k + n] + trail;
    SigOfSpaces(lead);
    SigOfSpaces(trail);
    SigAppend(lead + mid, trail);
    SigAppend(lead, mid);
  }

  lemma SigTrim(s: string)
    ensures Sig(Trim(s)) == Sig(s)
  {
    var r, k := Trim(s), |s| - |TrimStart(s)|;
    TrimShape(s);
    assert k + |r| <= |s| && r == s[k..k + |r|];
    SigDropsSurroundingSpace(s, k, |r|);
  }

  lemma {:induction false} SigStripPunct(s: string)
    ensures Sig(StripPunct(s)) == Sig(s)
    decreases |s|
  {
    if |s| > 0 {
      var head := if IsPunct(s[0]) then [] else [s[0]];
      SigAppend(head, StripPunct(s[1..]));
      SigStripPunct(s[1..]);
    }
  }

  lemma {:induction false} SigCollapse(s: string)
    ensures Sig(Collapse(s)) == Sig(s)
    decreases |s|
  {
    if |s| > 0 {
      var n := SpaceRun(s);
      SpaceRunShape(s);
      if n >= 2 {
        SigAppend([' '], Collapse(s[n..]));
        SigCollapse(s[n..]);
        assert s == s[..n] + s[n..];
        SigAppend(s[..n], s[n..]);
        SigOfSpaces(s[..n]);
      } else {
        SigAppend([s[0]], Collapse(s[1..]));
        SigCollapse(s[1..]);
      }
    }
  }

  /** The letters, digits and other non-whitespace, non-punctuation
      characters of the folded input survive, unchanged and in order. */
  lemma NormalizeKeepsSignificant(text: string)
    ensures Sig(NormalizeAnswer(text)) == Sig(Fold(text))
  {
    var t := Trim(Fold(text));
    SigTrim(Fold(text));
    SigStripPunct(t);
    SigCollapse(StripPunct(t));
  }

  // ---------------------------------------------------------------------
  // Fixed points and (restricted) idempotence

  lemma {:induction false} StripPunctNoPunct(s: string)
    requires NoPunct(s)
    ensures StripPunct(s) == s
    decreases |s|
  {
    if |s| > 0 {
      StripPunctNoPunct(s[1..]);
    }
  }

  lemma {:induction false} CollapseNoDoubleSpace(s: string)
    requires NoDoubleSpace(s)
    ensures Collapse(s) == s
    decreases |s|
  {
    if |s| > 0 {
      assert SpaceRun(s) < 2;
      CollapseNoDoubleSpace(s[1..]);
    }
  }

  lemma TrimTrimmed(s: string)
    requires Trimmed(s)
    ensures Trim(s) == s
  {
  }

  lemma {:induction false} FoldFolded(s: string)
    requires Folded(s)
    ensures Fold(s) == s
  {
  }

  /** A string already in normal form is left as it is. */
  lemma NormalizeFixedPoint(s: string)
    requires Folded(s) && Trimmed(s) && NoPunct(s) && NoDoubleSpace(s)
    ensures NormalizeAnswer(s) == s
  {
    FoldFolded(s);
    TrimTrimmed(s);
    StripPunctNoPunct(s);
    CollapseNoDoubleSpace(s);
  }

  lemma {:induction false} CollapseKeepsFolded(s: string)
    requires Folded(s)
    ensures Folded(Collapse(s))
    decreases |s|
  {
    if |s| > 0 {
      var n := SpaceRun(s);
      if n >= 2 {
        CollapseKeepsFolded(s[n..]);
        assert Lower(' ') == ' ';
      } else {
        CollapseKeepsFolded(s[1..]);
      }
    }
  }

  lemma SmallLetter(c: char)
    requires 'a' <= c <= 'z'
    ensures Lower(c) == c && !IsSpace(c) && !IsPunct(c)
  {
  }

  /** A word of small ASCII letters is already normal. */
  lemma SmallLetterWordIsNormal(w: string)
    requires forall i :: 0 <= i < |w| ==> 'a' <= w[i] <= 'z'
    ensures NormalizeAnswer(w) == w
    ensures Trim(w) == w
  {
    forall i | 0 <= i < |w|
      ensures Lower(w[i]) == w[i] && !IsSpace(w[i]) && !IsPunct(w[i])
    {
      SmallLetter(w[i]);
    }
    TrimTrimmed(w);
    NormalizeFixedPoint(w);
  }

  /** For input without punctuation, the result has no whitespace at either
      end, and normalising it again changes nothing. */
  lemma NormalizeIdempotentWithoutPunct(text: string)
    requires NoPunct(text)
    ensures Trimmed(NormalizeAnswer(text))
    ensures NormalizeAnswer(NormalizeAnswer(text)) == NormalizeAnswer(text)
  {
    var t := Trim(Fold(text));
    FoldedTrimWithoutPunct(text);
    StripPunctNoPunct(t);
    var r := Collapse(t);
    assert NormalizeAnswer(text) == r;
    CollapseShape(t);
    CollapseKeepsFolded(t);
    NormalizeFixedPoint(r);
  }

  /** Folding and trimming input without punctuation gives a folded,
      trimmed string without punctuation. */
  lemma FoldedTrimWithoutPunct(text: string)
    requires NoPunct(text)
    ensures var t := Trim(Fold(text));
      NoPunct(t) && Folded(t) && Trimmed(t)
  {
    var f := Fold(text);
    forall i | 0 <= i < |f|
      ensures !IsPunct(f[i]) && Lower(f[i]) == f[i]
    {
      LowerProperties(text[i]);
    }
    var t := Trim(f);
    TrimShape(f);
    var k := |f| - |TrimStart(f)|;
    forall i | 0 <= i < |t|
      ensures !IsPunct(t[i]) && Lower(t[i]) == t[i]
    {
      assert t[i] == f[k + i];
    }
  }

  /** A space followed only by punctuation survives: trimming ran first. */
  lemma ExampleStripExposesSpace()
    ensures NormalizeAnswer("a .") == "a "
  {
    var s: string := "a .";
    assert Folded(s) by {
      assert Lower(s[0]) == s[0] && Lower(s[1]) == s[1] && Lower(s[2]) == s[2];
    }
    FoldFolded(s);
    assert Trimmed(s);
    TrimTrimmed(s);
    assert StripPunct(s) == "a " by {
      assert s[1..] == " ." && s[1..][1..] == ".";
      assert StripPunct(".") == [];
    }
    assert NoDoubleSpace("a ");
    CollapseNoDoubleSpace("a ");
  }

  /** A plain trailing space is trimmed. */
  lemma ExampleTrailingSpace()
    ensures NormalizeAnswer("a ") == "a"
  {
    var s: string := "a ";
    assert Folded(s) by {
      assert Lower(s[0]) == s[0] && Lower(s[1]) == s[1];
    }
    FoldFolded(s);
    assert TrimStart(s) == s;
    assert TrimEnd(s) == "a" by {
      assert s[..1] == "a";
    }
    var t: string := "a";
    assert NoPunct(t) && NoDoubleSpace(t);
    StripPunctNoPunct(t);
    CollapseNoDoubleSpace(t);
  }

  /** Whitespace that punctuation removal exposes is not trimmed, so
      normalisation is not idempotent in general. */
  lemma NotIdempotentInGeneral()
    ensures NormalizeAnswer(NormalizeAnswer("a .")) != NormalizeAnswer("a .")
  {
    ExampleStripExposesSpace();
    ExampleTrailingSpace();
  }
}
