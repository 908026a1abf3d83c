/** The parts of JavaScript's String behaviour the validator relies on:
    the white-space set shared by `String.prototype.trim` and the regular-expression
    class `\s`, `trim` itself, and `split` on a one-character separator. */
module JsString {

  /** WhiteSpace and LineTerminator code points of ECMAScript (sections 12.2 and 12.3 of
      ECMA-262): tab, vertical tab, form feed, space, no-break space, the zero-width
      no-break space, every Zs code point, LF, CR, LS and PS. */
  predicate IsSpace(c: char) {
    || c == '\t' || c == '\n' || c == '\U{000B}' || c == '\U{000C}' || c == '\r'
    || c == ' ' || c == '\U{00A0}' || c == '\U{1680}'
    || ('\U{2000}' <= c <= '\U{200A}')
    || c == '\U{2028}' || c == '\U{2029}' || c == '\U{202F}' || c == '\U{205F}'
    || c == '\U{3000}' || c == '\U{FEFF}'
  }

  /** Every character of `s` satisfies `p`, checked character by character. */
  predicate All(s: string, p: char -> bool)
    decreases |s|
  {
    s == [] || (p(s[0]) && All(s[1..], p))
  }

  lemma {:induction false} AllAt(s: string, p: char -> bool)
    ensures All(s, p) <==> forall k :: 0 <= k < |s| ==> p(s[k])
    decreases |s|
  {
    if s != [] {
      AllAt(s[1..], p);
      assert forall k :: 1 <= k < |s| ==> s[k] == s[1..][k - 1];
    }
  }

  /** `All` over a concatenation. */
  lemma AllAppend(a: string, b: string, p: char -> bool)
    ensures All(a + b, p) <==> All(a, p) && All(b, p)
  {
    AllAt(a, p);
    AllAt(b, p);
    AllAt(a + b, p);
    if All(a + b, p) {
      forall k | 0 <= k < |a| ensures p(a[k]) {
        assert a[k] == (a + b)[k];
      }
      forall k | 0 <= k < |b| ensures p(b[k]) {
        assert b[k] == (a + b)[|a| + k];
      }
    }
    if All(a, p) && All(b, p) {
      forall k | 0 <= k < |a + b| ensures p((a + b)[k]) {
        if k >= |a| {
          assert (a + b)[k] == b[k - |a|];
        }
      }
    }
  }

  predicate AllSpace(s: string) {
    forall k :: 0 <= k < |s| ==> IsSpace(s[k])
  }

  lemma AllSpaceSuffix(s: string, n: nat)
    requires n <= |s| && AllSpace(s)
    ensures AllSpace(s[n..])
  {
    assert forall k :: 0 <= k < |s| - n ==> s[n..][k] == s[n + k];
  }

  /** Drops the leading white space. */
  function TrimStart(s: string): (r: string)
    ensures |r| <= |s|
  {
    if s != [] && IsSpace(s[0]) then TrimStart(s[1..]) else s
  }

  /** Drops the trailing white space. */
  function TrimEnd(s: string): (r: string)
    ensures |r| <= |s|
  {
    if s != [] && IsSpace(s[|s| - 1]) then TrimEnd(s[..|s| - 1]) else s
  }

  /** `TrimStart` removes a run of white space from the front and stops at the first other
      character. */
  lemma {:induction false} TrimStartDrops(s: string)
    ensures var r := TrimStart(s);
      && r == s[|s| - |r|..] && AllSpace(s[..|s| - |r|]) && (r == [] || !IsSpace(r[0]))
    decreases |s|
  {
    if s != [] && IsSpace(s[0]) {
      TrimStartDrops(s[1..]);
      var r := TrimStart(s);
      assert s[1..][..|s| - 1 - |r|] == s[1..|s| - |r|];
      assert forall k :: 1 <= k < |s| - |r| ==> s[k] == s[1..|s| - |r|][k - 1];
    }
  }

  /** `TrimEnd` removes a run of white space from the back and stops at the last other
      character. */
  lemma {:induction false} TrimEndDrops(s: string)
    ensures var r := TrimEnd(s);
      && r == s[..|r|] && AllSpace(s[|r|..]) && (r == [] || !IsSpace(r[|r| - 1]))
    decreases |s|
  {
    if s != [] && IsSpace(s[|s| - 1]) {
      TrimEndDrops(s[..|s| - 1]);
      var r := TrimEnd(s);
      assert forall k :: |r| <= k < |s| - 1 ==> s[k] == s[..|s| - 1][|r|..][k - |r|];
    }
  }

  /** `s.trim()` */
  function Trim(s: string): string {
    TrimEnd(TrimStart(s))
  }

  /** `s.trim() === ''` holds exactly when every character of `s` is white space. */
  lemma TrimEmptyIff(s: string)
    ensures Trim(s) == [] <==> AllSpace(s)
  {
    var t := TrimStart(s);
    TrimStartDrops(s);
    TrimEndDrops(t);
    if Trim(s) == [] {
      assert t[|TrimEnd(t)|..] == t;
      assert s[..|s| - |t|] == s;
    }
    if AllSpace(s) {
      AllSpaceSuffix(s, |s| - |t|);
    }
  }

  /** A string whose first and last characters are not white space is its own trim. */
  lemma TrimUnchanged(s: string)
    requires s != [] ==> !IsSpace(s[0]) && !IsSpace(s[|s| - 1])
    ensures Trim(s) == s
  {
  }

  /** The position of the first `c` in `s`, or `|s|` when there is none. */
  function IndexOf(s: string, c: char): (i: nat)
    ensures i <= |s|
    ensures i < |s| ==> s[i] == c
  {
    if s == [] then 0 else if s[0] == c then 0 else 1 + IndexOf(s[1..], c)
  }

  /** No `c` stands in front of `IndexOf(s, c)`. */
  lemma {:induction false} IndexOfFirst(s: string, c: char)
    ensures forall k :: 0 <= k < IndexOf(s, c) ==> s[k] != c
    decreases |s|
  {
    if s != [] && s[0] != c {
      IndexOfFirst(s[1..], c);
      assert forall k :: 1 <= k < |s| ==> s[k] == s[1..][k - 1];
    }
  }

  /** `IndexOf` finds the position of the first `c`. */
  lemma IndexOfIs(s: string, c: char, i: nat)
    requires i <= |s| && (i < |s| ==> s[i] == c)
    requires forall k :: 0 <= k < i ==> s[k] != c
    ensures IndexOf(s, c) == i
  {
    IndexOfFirst(s, c);
  }

  /** `s.split(sep)`: the pieces between occurrences of `sep`; never empty, and `""` splits
      into `[""]`. */
  function Split(s: string, sep: char): (r: seq<string>)
    ensures |r| >= 1
    ensures forall i :: 0 <= i < |r| ==> sep !in r[i]
    decreases |s|
  {
    if s == [] then [[]]
    else
      var rest := Split(s[1..], sep);
      if s[0] == sep then [[]] + rest
      else [[s[0]] + rest[0]] + rest[1..]
  }

  /** `pieces.join(sep)` */
  function Join(pieces: seq<string>, sep: char): string
    decreases |pieces|
  {
    if |pieces| == 0 then []
    else if |pieces| == 1 then pieces[0]
    else pieces[0] + [sep] + Join(pieces[1..], sep)
  }

  /** Splitting loses nothing: joining the pieces gives the string back. */
  lemma {:induction false} JoinSplit(s: string, sep: char)
    ensures Join(Split(s, sep), sep) == s
    decreases |s|
  {
    if s != [] {
      JoinSplit(s[1..], sep);
      var rest := Split(s[1..], sep);
      if s[0] == sep {
        assert Split(s, sep) == [[]] + rest;
        assert s == [sep] + s[1..];
      } else {
        var r := Split(s, sep);
        assert r == [[s[0]] + rest[0]] + rest[1..];
        if |rest| == 1 {
          assert r == [[s[0]] + rest[0]];
        } else {
          assert r[1..] == rest[1..];
          assert Join(rest, sep) == rest[0] + [sep] + Join(rest[1..], sep);
        }
        assert s == [s[0]] + s[1..];
      }
    }
  }

  /** Splitting a join of separator-free pieces gives the pieces back. */
  lemma {:induction false} SplitJoin(pieces: seq<string>, sep: char)
    requires |pieces| >= 1
    requires forall i :: 0 <= i < |pieces| ==> sep !in pieces[i]
    ensures Split(Join(pieces, sep), sep) == pieces
    decreases |pieces|, |pieces[0]|
  {
    var p := pieces[0];
    if p == [] {
      if |pieces| > 1 {
        assert Join(pieces, sep) == [sep] + Join(pieces[1..], sep);
        SplitJoin(pieces[1..], sep);
        assert Join(pieces, sep)[1..] == Join(pieces[1..], sep);
        assert pieces == [[]] + pieces[1..];
      }
    } else {
      var shorter := [p[1..]] + pieces[1..];
      ShorterIsSeparatorFree(pieces, sep);
      SplitJoin(shorter, sep);
      JoinFirstChar(pieces, sep);
      SplitFirstChar(p[0], Join(shorter, sep), sep);
      assert [p[0]] + p[1..] == p;
      assert shorter[1..] == pieces[1..];
      assert pieces == [p] + pieces[1..];
    }
  }

  /** Dropping the first character of the first piece keeps the pieces free of `sep`. */
  lemma ShorterIsSeparatorFree(pieces: seq<string>, sep: char)
    requires |pieces| >= 1 && pieces[0] != []
    requires forall i :: 0 <= i < |pieces| ==> sep !in pieces[i]
    ensures var shorter := [pieces[0][1..]] + pieces[1..];
      forall i :: 0 <= i < |shorter| ==> sep !in shorter[i]
  {
    var shorter := [pieces[0][1..]] + pieces[1..];
    forall i | 0 <= i < |shorter| ensures sep !in shorter[i] {
      if i == 0 {
        assert forall c :: c in pieces[0][1..] ==> c in pieces[0];
      } else {
        assert shorter[i] == pieces[i];
      }
    }
  }

  /** A join starts with the first character of its first piece. */
  lemma JoinFirstChar(pieces: seq<string>, sep: char)
    requires |pieces| >= 1 && pieces[0] != []
    ensures Join(pieces, sep) == [pieces[0][0]] + Join([pieces[0][1..]] + pieces[1..], sep)
  {
    var p := pieces[0];
    var shorter := [p[1..]] + pieces[1..];
    assert p == [p[0]] + p[1..];
    if |pieces| > 1 {
      assert shorter[1..] == pieces[1..];
    }
  }

  /** A character other than `sep` joins the first piece of the split of what follows. */
  lemma SplitFirstChar(c: char, rest: string, sep: char)
    requires c != sep
    ensures Split([c] + rest, sep) == [[c] + Split(rest, sep)[0]] + Split(rest, sep)[1..]
  {
    assert ([c] + rest)[1..] == rest;
  }

  /** The first piece of a split is the longest prefix free of `sep`: it is followed by the
      end of the string or by `sep`. */
  lemma {:induction false} FirstPieceIsPrefix(s: string, sep: char)
    ensures var p := Split(s, sep)[0];
      |p| <= |s| && s[..|p|] == p && (|p| == |s| || s[|p|] == sep)
    decreases |s|
  {
    if s != [] && s[0] != sep {
      FirstPieceIsPrefix(s[1..], sep);
    }
  }
}
