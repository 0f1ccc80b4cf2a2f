/** The JavaScript string operations the loader relies on, on strings as
    sequences of characters: String.prototype.trim, split with a
    one-character separator, split on the regular expression /\s+/,
    includes and toLowerCase. */
module Text {

  /** The characters that String.prototype.trim removes and that the
      regular-expression class \s matches: WhiteSpace and LineTerminator of
      ECMA-262 (sections 12.2 and 12.3), the Zs category spelled out. */
  const Spaces: set<char> := {
    '\t', '\n', '\U{000B}', '\U{000C}', '\r', ' ', '\U{00A0}', '\U{1680}',
    '\U{2000}', '\U{2001}', '\U{2002}', '\U{2003}', '\U{2004}', '\U{2005}',
    '\U{2006}', '\U{2007}', '\U{2008}', '\U{2009}', '\U{200A}',
    '\U{2028}', '\U{2029}', '\U{202F}', '\U{205F}', '\U{3000}', '\U{FEFF}'
  }

  predicate IsSpace(c: char) {
    c in Spaces
  }

  /** A string with no white space in it. */
  predicate NoSpace(s: string) {
    forall i :: 0 <= i < |s| ==> !IsSpace(s[i])
  }

  /** A string that neither starts nor ends with white space. */
  predicate Trimmed(s: string) {
    s == [] || (!IsSpace(s[0]) && !IsSpace(s[|s| - 1]))
  }

  /** Drops the leading white space. */
  function TrimStart(s: string): string {
    if |s| > 0 && IsSpace(s[0]) then TrimStart(s[1..]) else s
  }

  /** Drops the trailing white space. */
  function TrimEnd(s: string): string {
    if |s| > 0 && IsSpace(s[|s| - 1]) then TrimEnd(s[..|s| - 1]) else s
  }

  /** s.trim() */
  function Trim(s: string): string {
    TrimEnd(TrimStart(s))
  }

  /** TrimStart drops exactly the leading white space: the result is the
      longest suffix of `s` that does not start with white space. */
  lemma {:induction false} TrimStartShape(s: string)
    ensures var r := TrimStart(s);
      |r| <= |s| && r == s[|s| - |r|..]
      && (forall i :: 0 <= i < |s| - |r| ==> IsSpace(s[i]))
      && (r == [] || !IsSpace(r[0]))
  {
    if |s| > 0 && IsSpace(s[0]) {
      TrimStartShape(s[1..]);
    }
  }

  /** TrimEnd drops exactly the trailing white space: the result is the
      longest prefix of `s` that does not end with white space. */
  lemma {:induction false} TrimEndShape(s: string)
    ensures var r := TrimEnd(s);
      |r| <= |s| && r == s[..|r|]
      && (forall i :: |r| <= i < |s| ==> IsSpace(s[i]))
      && (r == [] || !IsSpace(r[|r| - 1]))
  {
    if |s| > 0 && IsSpace(s[|s| - 1]) {
      TrimEndShape(s[..|s| - 1]);
    }
  }

  /** trim() removes white space from both ends and nothing else: the
      result is the infix of `s` after its leading white space, it neither
      starts nor ends with white space, and everything after it is white
      space. */
  lemma TrimShape(s: string)
    ensures var i := |s| - |TrimStart(s)|; var r := Trim(s);
      Trimmed(r) && 0 <= i && i + |r| <= |s| && r == s[i..i + |r|]
      && (forall k :: 0 <= k < i ==> IsSpace(s[k]))
      && (forall k :: i + |r| <= k < |s| ==> IsSpace(s[k]))
  {
    TrimStartShape(s);
    TrimEndShape(TrimStart(s));
    TrimmedInfix(s, TrimStart(s), TrimEnd(TrimStart(s)));
  }

  /** A prefix `r` of a suffix `t` of `s`, with only white space cut off at
      either end, is an infix of `s` with only white space around it. */
  lemma TrimmedInfix(s: string, t: string, r: string)
    requires |t| <= |s| && t == s[|s| - |t|..]
    requires forall i :: 0 <= i < |s| - |t| ==> IsSpace(s[i])
    requires t == [] || !IsSpace(t[0])
    requires |r| <= |t| && r == t[..|r|]
    requires forall i :: |r| <= i < |t| ==> IsSpace(t[i])
    requires r == [] || !IsSpace(r[|r| - 1])
    ensures var i := |s| - |t|;
      Trimmed(r) && i + |r| <= |s| && r == s[i..i + |r|]
      && (forall k :: 0 <= k < i ==> IsSpace(s[k]))
      && (forall k :: i + |r| <= k < |s| ==> IsSpace(s[k]))
  {
    var i := |s| - |t|;
    if r != [] {
      assert r[0] == t[0];
    }
    assert r == s[i..i + |r|];
    forall k | i + |r| <= k < |s|
      ensures IsSpace(s[k])
    {
      assert s[k] == t[k - i];
    }
  }

  /** trim() leaves a string alone exactly when it has no white space at
      either end. */
  lemma TrimFixed(s: string)
    ensures Trim(s) == s <==> Trimmed(s)
  {
    if Trimmed(s) {
      assert TrimStart(s) == s;
      assert TrimEnd(s) == s;
    } else {
      TrimShape(s);
    }
  }

  /** Appending white space leaves TrimStart alone unless the string is all
      white space. */
  lemma {:induction false} TrimStartAppend(s: string, c: char)
    requires IsSpace(c)
    ensures TrimStart(s + [c]) == if TrimStart(s) == [] then [] else TrimStart(s) + [c]
  {
    if s == [] {
      assert TrimStart([c]) == TrimStart([c][1..]);
    } else if IsSpace(s[0]) {
      assert (s + [c])[1..] == s[1..] + [c];
      TrimStartAppend(s[1..], c);
    }
  }

  /** Appending white space leaves TrimEnd alone. */
  lemma TrimEndAppend(s: string, c: char)
    requires IsSpace(c)
    ensures TrimEnd(s + [c]) == TrimEnd(s)
  {
    assert (s + [c])[..|s|] == s;
  }

  /** trim() ignores trailing white space. */
  lemma {:induction false} TrimAppend(s: string, c: char)
    requires IsSpace(c)
    ensures Trim(s + [c]) == Trim(s)
  {
    TrimStartAppend(s, c);
    if TrimStart(s) != [] {
      TrimEndAppend(TrimStart(s), c);
    }
  }

  /** s.split(sep) for a one-character separator: the pieces between the
      occurrences of `sep`, empty ones included; never an empty list. */
  function Split(s: string, sep: char): (r: seq<string>)
    ensures |r| >= 1
  {
    if s == [] then [[]]
    else
      var rest := Split(s[1..], sep);
      if s[0] == sep then [[]] + rest
      else [[s[0]] + rest[0]] + rest[1..]
  }

  /** No piece of a split holds the separator. */
  lemma {:induction false} SplitPieces(s: string, sep: char)
    ensures forall i :: 0 <= i < |Split(s, sep)| ==> sep !in Split(s, sep)[i]
  {
    if s != [] {
      SplitPieces(s[1..], sep);
      var rest := Split(s[1..], sep);
      if s[0] != sep {
        assert forall i :: 1 <= i < |Split(s, sep)| ==> Split(s, sep)[i] == rest[i];
      } else {
        assert forall i :: 1 <= i < |Split(s, sep)| ==> Split(s, sep)[i] == rest[i - 1];
      }
    }
  }

  /** pieces.join(sep), the inverse of Split. */
  function Join(pieces: seq<string>, sep: char): string
    requires |pieces| >= 1
  {
    if |pieces| == 1 then pieces[0]
    else pieces[0] + [sep] + Join(pieces[1..], sep)
  }

  /** Joining the pieces of a split gives back the string. */
  lemma {:induction false} JoinSplit(s: string, sep: char)
    ensures Join(Split(s, sep), sep) == s
  {
    if s != [] {
      var rest := Split(s[1..], sep);
      JoinSplit(s[1..], sep);
      if s[0] == sep {
        assert Split(s, sep)[1..] == rest;
      } else {
        var r := Split(s, sep);
        if |rest| == 1 {
          assert r == [[s[0]] + rest[0]];
        } else {
          assert r[1..] == rest[1..];
          assert Join(rest, sep) == rest[0] + [sep] + Join(rest[1..], sep);
        }
      }
    }
  }

  /** A string without the separator splits into itself alone. */
  lemma {:induction false} SplitWithoutSeparator(s: string, sep: char)
    requires sep !in s
    ensures Split(s, sep) == [s]
  {
    if s != [] {
      assert sep !in s[1..];
      SplitWithoutSeparator(s[1..], sep);
      assert [s[0]] + s[1..] == s;
    }
  }

  /** Splitting distributes over a separator in the middle. */
  lemma {:induction false} SplitAtSeparator(a: string, b: string, sep: char)
    ensures Split(a + [sep] + b, sep) == Split(a, sep) + Split(b, sep)
  {
    if a == [] {
      assert [] + [sep] + b == [sep] + b;
      assert ([sep] + b)[1..] == b;
    } else {
      assert (a + [sep] + b)[1..] == a[1..] + [sep] + b;
      SplitAtSeparator(a[1..], b, sep);
    }
  }

  /** Splitting a join gives back the pieces when none contains the
      separator. */
  lemma {:induction false} SplitJoin(pieces: seq<string>, sep: char)
    requires |pieces| >= 1
    requires forall i :: 0 <= i < |pieces| ==> sep !in pieces[i]
    ensures Split(Join(pieces, sep), sep) == pieces
  {
    SplitWithoutSeparator(pieces[0], sep);
    if |pieces| > 1 {
      SplitJoin(pieces[1..], sep);
      SplitAtSeparator(pieces[0], Join(pieces[1..], sep), sep);
      assert [pieces[0]] + pieces[1..] == pieces;
    }
  }

  /** A split yields one piece more than there are separators. */
  lemma {:induction false} SplitCount(s: string, sep: char)
    ensures |Split(s, sep)| == multiset(s)[sep] + 1
  {
    if s != [] {
      SplitCount(s[1..], sep);
      assert s == [s[0]] + s[1..];
      assert multiset(s) == multiset([s[0]]) + multiset(s[1..]);
    }
  }

  /** The last piece of a split is the longest suffix without the
      separator: either all of `s`, or the part after the last separator. */
  lemma {:induction false} SplitLast(s: string, sep: char)
    ensures var r := Split(s, sep); var last := r[|r| - 1];
      |last| <= |s| && last == s[|s| - |last|..] && sep !in last
      && (|last| < |s| ==> s[|s| - |last| - 1] == sep)
  {
    SplitPieces(s, sep);
    if s != [] {
      var rest := Split(s[1..], sep);
      var r := Split(s, sep);
      SplitLast(s[1..], sep);
      var last := rest[|rest| - 1];
      if s[0] == sep {
        assert r[|r| - 1] == last;
      } else if |rest| == 1 {
        JoinSplit(s[1..], sep);
        assert rest[0] == s[1..];
        assert r == [[s[0]] + s[1..]];
        assert [s[0]] + s[1..] == s;
      } else {
        assert r == [[s[0]] + rest[0]] + rest[1..];
        assert r[|r| - 1] == rest[1..][|rest| - 2];
        if |last| == |s| - 1 {
          assert last == s[1..];
          SplitPieces(s[1..], sep);
          SplitWithoutSeparator(s[1..], sep);
        }
      }
    }
  }

  /** s.split(/\s+/): the pieces between the maximal runs of white space.
      There is an empty first piece when `s` starts with white space and an
      empty last piece when it ends with it; "" gives [""]. */
  function SplitSpaces(s: string): (r: seq<string>)
    ensures |r| >= 1
  {
    if s == [] then [[]]
    else
      var rest := SplitSpaces(s[1..]);
      if IsSpace(s[0]) then
        if |s| > 1 && IsSpace(s[1]) then rest else [[]] + rest
      else
        [[s[0]] + rest[0]] + rest[1..]
  }

  /** No field of a white-space split holds white space. */
  lemma {:induction false} SplitSpacesFields(s: string)
    ensures forall i :: 0 <= i < |SplitSpaces(s)| ==> NoSpace(SplitSpaces(s)[i])
  {
    if s != [] {
      SplitSpacesFields(s[1..]);
      var rest := SplitSpaces(s[1..]);
      var r := SplitSpaces(s);
      if !IsSpace(s[0]) {
        assert forall i :: 1 <= i < |r| ==> r[i] == rest[i];
        assert NoSpace(rest[0]);
        assert r[0] == [s[0]] + rest[0];
      } else if |s| == 1 || !IsSpace(s[1]) {
        assert forall i :: 1 <= i < |r| ==> r[i] == rest[i - 1];
      }
    }
  }

  /** A string without white space is a single field. */
  lemma {:induction false} SplitSpacesWord(t: string)
    requires NoSpace(t)
    ensures SplitSpaces(t) == [t]
  {
    if t != [] {
      assert NoSpace(t[1..]);
      SplitSpacesWord(t[1..]);
      assert [t[0]] + t[1..] == t;
    }
  }

  /** A word followed by one space splits off as the first field. */
  lemma {:induction false} SplitSpacesAfterWord(t: string, u: string)
    requires t != [] && NoSpace(t)
    requires u != [] && !IsSpace(u[0])
    ensures SplitSpaces(t + [' '] + u) == [t] + SplitSpaces(u)
  {
    var s := t + [' '] + u;
    if |t| == 1 {
      assert s[1..] == [' '] + u;
      assert ([' '] + u)[1..] == u;
      assert SplitSpaces([' '] + u) == [[]] + SplitSpaces(u);
      assert [t[0]] + [] == t;
    } else {
      assert NoSpace(t[1..]);
      assert s[1..] == t[1..] + [' '] + u;
      SplitSpacesAfterWord(t[1..], u);
      assert [t[0]] + t[1..] == t;
    }
  }

  /** A string of nothing but white space. */
  predicate AllSpace(w: string) {
    forall i :: 0 <= i < |w| ==> IsSpace(w[i])
  }

  /** A leading run of white space, however long, gives one empty field. */
  lemma {:induction false} SplitSpacesRun(w: string, u: string)
    requires w != [] && AllSpace(w)
    requires u != [] && !IsSpace(u[0])
    ensures SplitSpaces(w + u) == [[]] + SplitSpaces(u)
  {
    var s := w + u;
    if |w| == 1 {
      assert s[1..] == u;
    } else {
      assert s[1..] == w[1..] + u;
      SplitSpacesRun(w[1..], u);
    }
  }

  /** A run of white space of any length and mix (spaces, tabs) after a word
      separates it from what follows, as a single space does. */
  lemma {:induction false} SplitSpacesAfterRun(t: string, w: string, u: string)
    requires t != [] && NoSpace(t)
    requires w != [] && AllSpace(w)
    requires u != [] && !IsSpace(u[0])
    ensures SplitSpaces(t + w + u) == [t] + SplitSpaces(u)
  {
    var s := t + w + u;
    if |t| == 1 {
      assert s[1..] == w + u;
      SplitSpacesRun(w, u);
      assert [t[0]] + [] == t;
    } else {
      assert NoSpace(t[1..]);
      assert s[1..] == t[1..] + w + u;
      SplitSpacesAfterRun(t[1..], w, u);
      assert [t[0]] + t[1..] == t;
    }
  }

  /** Splitting on white space undoes joining non-empty words with single
      spaces. */
  lemma {:induction false} SplitSpacesJoin(words: seq<string>)
    requires |words| >= 1
    requires forall i :: 0 <= i < |words| ==> words[i] != [] && NoSpace(words[i])
    ensures SplitSpaces(Join(words, ' ')) == words
  {
    if |words| == 1 {
      SplitSpacesWord(words[0]);
    } else {
      var tail := Join(words[1..], ' ');
      JoinFirst(words[1..], ' ');
      SplitSpacesJoin(words[1..]);
      SplitSpacesAfterWord(words[0], tail);
      assert [words[0]] + words[1..] == words;
    }
  }

  /** A join starts with the first character of its first piece. */
  lemma {:induction false} JoinFirst(pieces: seq<string>, sep: char)
    requires |pieces| >= 1 && pieces[0] != []
    ensures Join(pieces, sep) != [] && Join(pieces, sep)[0] == pieces[0][0]
  {
  }

  /** A join ends with the last character of its last piece. */
  lemma {:induction false} JoinLast(pieces: seq<string>, sep: char)
    requires |pieces| >= 1 && pieces[|pieces| - 1] != []
    ensures var j := Join(pieces, sep); j != [] && j[|j| - 1] == pieces[|pieces| - 1][|pieces[|pieces| - 1]| - 1]
  {
    if |pieces| > 1 {
      JoinLast(pieces[1..], sep);
    }
  }

  /** Joining non-empty pieces that are free of white space at both ends
      gives a string free of it at both ends. */
  lemma JoinTrimmed(pieces: seq<string>, sep: char)
    requires |pieces| >= 1
    requires forall i :: 0 <= i < |pieces| ==> pieces[i] != [] && Trimmed(pieces[i])
    ensures Trimmed(Join(pieces, sep))
  {
    var last := pieces[|pieces| - 1];
    assert pieces[0] != [] && !IsSpace(pieces[0][0]);
    assert last != [] && !IsSpace(last[|last| - 1]);
    JoinFirst(pieces, sep);
    JoinLast(pieces, sep);
  }

  /** Concatenating two lists of pieces that avoid a character gives one
      that avoids it. */
  lemma AvoidsConcat(a: seq<string>, b: seq<string>, c: char)
    requires forall i :: 0 <= i < |a| ==> c !in a[i]
    requires forall i :: 0 <= i < |b| ==> c !in b[i]
    ensures forall i :: 0 <= i < |a + b| ==> c !in (a + b)[i]
  {
    forall i | 0 <= i < |a + b|
      ensures c !in (a + b)[i]
    {
      if i < |a| {
        assert (a + b)[i] == a[i];
      } else {
        assert (a + b)[i] == b[i - |a|];
      }
    }
  }

  /** A join contains a character only if a piece or the separator does. */
  lemma {:induction false} JoinAvoids(pieces: seq<string>, sep: char, c: char)
    requires |pieces| >= 1 && c != sep
    requires forall i :: 0 <= i < |pieces| ==> c !in pieces[i]
    ensures c !in Join(pieces, sep)
  {
    if |pieces| > 1 {
      JoinAvoids(pieces[1..], sep, c);
    }
  }

  /** s.includes(sub) */
  predicate Contains(s: string, sub: string)
    decreases |s|
  {
    |sub| <= |s| && (s[..|sub|] == sub || Contains(s[1..], sub))
  }

  /** `sub` occurs in `s` starting at index i. */
  predicate OccursAt(s: string, sub: string, i: int) {
    0 <= i && i + |sub| <= |s| && s[i..i + |sub|] == sub
  }

  /** includes holds exactly when `sub` occurs somewhere in `s`. */
  lemma {:induction false} ContainsAt(s: string, sub: string)
    ensures Contains(s, sub) <==> exists i :: OccursAt(s, sub, i)
    decreases |s|
  {
    if sub == [] {
      assert s[..0] == sub;
      assert OccursAt(s, sub, 0);
    } else if |sub| <= |s| {
      if s[..|sub|] == sub {
        assert OccursAt(s, sub, 0);
      }
      ContainsAt(s[1..], sub);
      if exists i :: OccursAt(s[1..], sub, i) {
        var i :| OccursAt(s[1..], sub, i);
        assert s[i + 1..i + 1 + |sub|] == s[1..][i..i + |sub|];
        assert OccursAt(s, sub, i + 1);
      }
      if exists i :: OccursAt(s, sub, i) {
        var i :| OccursAt(s, sub, i);
        if i > 0 {
          assert s[1..][i - 1..i - 1 + |sub|] == s[i..i + |sub|];
          assert OccursAt(s[1..], sub, i - 1);
        } else {
          assert s[..|sub|] == sub;
        }
      }
    }
  }

  /** The ASCII case mapping of toLowerCase. */
  function LowerChar(c: char): char {
    if 'A' <= c <= 'Z' then (c as int + 32) as char else c
  }

  /** s.toLowerCase(), restricted to the ASCII letters. */
  function ToLower(s: string): string {
    if s == [] then [] else [LowerChar(s[0])] + ToLower(s[1..])
  }

  /** toLowerCase maps every character on its own and keeps the length. */
  lemma {:induction false} ToLowerChars(s: string)
    ensures |ToLower(s)| == |s|
    ensures forall i :: 0 <= i < |s| ==> ToLower(s)[i] == LowerChar(s[i])
  {
    if s != [] {
      ToLowerChars(s[1..]);
    }
  }
}
