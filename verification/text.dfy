/**
  The Python `str` operations the message parsers rely on: `startswith`,
  `endswith`, `in`, `split(sep)`, `sep.join(parts)` and `replace(old, new)`,
  each defined by the left-to-right scan Python performs, together with the
  laws that relate them.
 */
module Text {

  /** `s.startswith(p)` */
  predicate StartsWith(s: string, p: string) {
    |p| <= |s| && s[..|p|] == p
  }

  /** `s.endswith(p)` */
  predicate EndsWith(s: string, p: string) {
    |p| <= |s| && s[|s| - |p|..] == p
  }

  /** `p in s`: tries every start position from the left. */
  predicate Contains(s: string, p: string)
    decreases |s|
  {
    StartsWith(s, p) || (|s| > 0 && Contains(s[1..], p))
  }

  /** `c in s` for a single character, as used by the lemmas below. */
  predicate HasChar(s: string, c: char) {
    exists i :: 0 <= i < |s| && s[i] == c
  }

  /**
    `s.split(sep)` for a non-empty separator (Python raises ValueError for
    an empty one). Occurrences are found leftmost first and do not overlap;
    the result always has at least one piece.
   */
  function Split(s: string, sep: string): (parts: seq<string>)
    requires |sep| > 0
    ensures |parts| >= 1
    decreases |s|
  {
    if |s| < |sep| then [s]
    else if s[..|sep|] == sep then [""] + Split(s[|sep|..], sep)
    else
      var rest := Split(s[1..], sep);
      [[s[0]] + rest[0]] + rest[1..]
  }

  /** `sep.join(parts)` */
  function Join(parts: seq<string>, sep: string): string
  {
    if |parts| == 0 then ""
    else if |parts| == 1 then parts[0]
    else parts[0] + sep + Join(parts[1..], sep)
  }

  /**
    `s.replace(pat, rep)` for a non-empty pattern: one left-to-right pass
    replacing non-overlapping occurrences, so the replacement text is never
    rescanned.
   */
  function Replace(s: string, pat: string, rep: string): string
    requires |pat| > 0
    decreases |s|
  {
    if |s| < |pat| then s
    else if s[..|pat|] == pat then rep + Replace(s[|pat|..], pat, rep)
    else [s[0]] + Replace(s[1..], pat, rep)
  }

  /** `xs[-1]` on a non-empty list. */
  function Last<T>(xs: seq<T>): T
    requires |xs| > 0
  {
    xs[|xs| - 1]
  }

  // ---------------------------------------------------------------------
  // Laws

  /** Gluing a non-empty first piece onto the front of a join. */
  lemma {:induction false} JoinConsHead(c: char, p: string, rest: seq<string>, sep: string)
    ensures Join([[c] + p] + rest, sep) == [c] + Join([p] + rest, sep)
  {
    if |rest| == 0 {
    } else {
      assert ([[c] + p] + rest)[1..] == rest;
      assert ([p] + rest)[1..] == rest;
    }
  }

  /** `sep.join(s.split(sep)) == s` for every string. */
  lemma {:induction false} JoinSplit(s: string, sep: string)
    requires |sep| > 0
    ensures Join(Split(s, sep), sep) == s
    decreases |s|
  {
    if |s| < |sep| {
    } else if s[..|sep|] == sep {
      var rest := Split(s[|sep|..], sep);
      JoinSplit(s[|sep|..], sep);
      assert ([""] + rest)[1..] == rest;
      assert Join([""] + rest, sep) == "" + sep + Join(rest, sep);
      assert s == s[..|sep|] + s[|sep|..];
    } else {
      var rest := Split(s[1..], sep);
      JoinSplit(s[1..], sep);
      assert rest == [rest[0]] + rest[1..];
      JoinConsHead(s[0], rest[0], rest[1..], sep);
      assert s == [s[0]] + s[1..];
    }
  }

  /** A string without the separator's first character is a single piece. */
  lemma {:induction false} SplitNoSeparator(s: string, sep: string)
    requires |sep| > 0
    requires !HasChar(s, sep[0])
    ensures Split(s, sep) == [s]
    decreases |s|
  {
    if |s| < |sep| {
    } else {
      assert s[0] != sep[0];
      assert s[..|sep|] != sep;
      assert !HasChar(s[1..], sep[0]) by {
        forall i | 0 <= i < |s[1..]| ensures s[1..][i] != sep[0] {
          assert s[1..][i] == s[i + 1];
        }
      }
      SplitNoSeparator(s[1..], sep);
      assert [s[0]] + s[1..] == s;
    }
  }

  /** A separator-free piece in front of the separator is split off as is. */
  lemma {:induction false} SplitAfterPiece(p: string, sep: string, tail: string)
    requires |sep| > 0
    requires !HasChar(p, sep[0])
    ensures Split(p + sep + tail, sep) == [p] + Split(tail, sep)
    decreases |p|
  {
    var s := p + sep + tail;
    if |p| == 0 {
      assert s == sep + tail;
      assert s[..|sep|] == sep;
      assert s[|sep|..] == tail;
    } else {
      assert s[0] == p[0];
      assert p[0] != sep[0];
      assert s[..|sep|] != sep;
      assert !HasChar(p[1..], sep[0]) by {
        forall i | 0 <= i < |p[1..]| ensures p[1..][i] != sep[0] {
          assert p[1..][i] == p[i + 1];
        }
      }
      SplitAfterPiece(p[1..], sep, tail);
      assert s[1..] == p[1..] + sep + tail;
      var rest := Split(s[1..], sep);
      assert rest[0] == p[1..];
      assert [s[0]] + rest[0] == p;
      assert rest[1..] == Split(tail, sep);
    }
  }

  /**
    `sep.join(parts).split(sep) == parts` whenever no piece holds the
    separator's first character, so no occurrence can start inside a piece.
   */
  lemma {:induction false} SplitJoin(parts: seq<string>, sep: string)
    requires |sep| > 0 && |parts| > 0
    requires forall k :: 0 <= k < |parts| ==> !HasChar(parts[k], sep[0])
    ensures Split(Join(parts, sep), sep) == parts
    decreases |parts|
  {
    if |parts| == 1 {
      SplitNoSeparator(parts[0], sep);
    } else {
      SplitJoin(parts[1..], sep);
      SplitAfterPiece(parts[0], sep, Join(parts[1..], sep));
      assert [parts[0]] + parts[1..] == parts;
    }
  }

  /** Every piece of a split on a one-character separator is free of it. */
  lemma {:induction false} SplitPiecesAvoidSeparator(s: string, sep: string)
    requires |sep| == 1
    ensures forall k :: 0 <= k < |Split(s, sep)| ==> !HasChar(Split(s, sep)[k], sep[0])
    decreases |s|
  {
    var parts := Split(s, sep);
    if |s| < |sep| {
      assert |s| == 0;
    } else if s[..|sep|] == sep {
      SplitPiecesAvoidSeparator(s[|sep|..], sep);
      var rest := Split(s[|sep|..], sep);
      assert parts == [""] + rest;
      forall k | 0 <= k < |parts| ensures !HasChar(parts[k], sep[0]) {
        if k > 0 {
          assert parts[k] == rest[k - 1];
        }
      }
    } else {
      SplitPiecesAvoidSeparator(s[1..], sep);
      var rest := Split(s[1..], sep);
      assert s[0] != sep[0] by {
        assert s[..1] == [s[0]];
      }
      assert parts == [[s[0]] + rest[0]] + rest[1..];
      forall k | 0 <= k < |parts| ensures !HasChar(parts[k], sep[0]) {
        if k == 0 {
          var p := [s[0]] + rest[0];
          forall i | 0 <= i < |p| ensures p[i] != sep[0] {
            if i > 0 {
              assert p[i] == rest[0][i - 1];
            }
          }
        } else {
          assert parts[k] == rest[k];
        }
      }
    }
  }

  /** Splitting never invents characters: every piece's characters come from `s`. */
  lemma {:induction false} SplitPiecesWithin(s: string, sep: string, c: char)
    requires |sep| > 0
    requires !HasChar(s, c)
    ensures forall k :: 0 <= k < |Split(s, sep)| ==> !HasChar(Split(s, sep)[k], c)
    decreases |s|
  {
    var parts := Split(s, sep);
    if |s| < |sep| {
      assert parts == [s];
    } else if s[..|sep|] == sep {
      assert !HasChar(s[|sep|..], c) by {
        forall i | 0 <= i < |s[|sep|..]| ensures s[|sep|..][i] != c {
          assert s[|sep|..][i] == s[i + |sep|];
        }
      }
      SplitPiecesWithin(s[|sep|..], sep, c);
      var rest := Split(s[|sep|..], sep);
      forall k | 0 <= k < |parts| ensures !HasChar(parts[k], c) {
        if k > 0 {
          assert parts[k] == rest[k - 1];
        }
      }
    } else {
      assert !HasChar(s[1..], c) by {
        forall i | 0 <= i < |s[1..]| ensures s[1..][i] != c {
          assert s[1..][i] == s[i + 1];
        }
      }
      SplitPiecesWithin(s[1..], sep, c);
      var rest := Split(s[1..], sep);
      assert s[0] != c;
      forall k | 0 <= k < |parts| ensures !HasChar(parts[k], c) {
        if k == 0 {
          var p := [s[0]] + rest[0];
          forall i | 0 <= i < |p| ensures p[i] != c {
            if i > 0 {
              assert p[i] == rest[0][i - 1];
            }
          }
        } else {
          assert parts[k] == rest[k];
        }
      }
    }
  }

  /** `s.replace(pat, rep) == rep.join(s.split(pat))`. */
  lemma {:induction false} ReplaceIsJoinOfSplit(s: string, pat: string, rep: string)
    requires |pat| > 0
    ensures Replace(s, pat, rep) == Join(Split(s, pat), rep)
    decreases |s|
  {
    if |s| < |pat| {
    } else if s[..|pat|] == pat {
      var rest := Split(s[|pat|..], pat);
      ReplaceIsJoinOfSplit(s[|pat|..], pat, rep);
      assert ([""] + rest)[1..] == rest;
      assert Join([""] + rest, rep) == "" + rep + Join(rest, rep);
    } else {
      var rest := Split(s[1..], pat);
      ReplaceIsJoinOfSplit(s[1..], pat, rep);
      assert rest == [rest[0]] + rest[1..];
      JoinConsHead(s[0], rest[0], rest[1..], rep);
    }
  }

  /** Text before the pattern's first character passes through unchanged. */
  lemma {:induction false} ReplaceSkipsPiece(p: string, pat: string, rep: string, tail: string)
    requires |pat| > 0
    requires !HasChar(p, pat[0])
    ensures Replace(p + tail, pat, rep) == p + Replace(tail, pat, rep)
    decreases |p|
  {
    if |p| > 0 {
      var s := p + tail;
      assert s[0] == p[0] && p[0] != pat[0];
      assert !HasChar(p[1..], pat[0]) by {
        forall i | 0 <= i < |p[1..]| ensures p[1..][i] != pat[0] {
          assert p[1..][i] == p[i + 1];
        }
      }
      ReplaceSkipsPiece(p[1..], pat, rep, tail);
      assert s[1..] == p[1..] + tail;
      if |s| >= |pat| {
        assert s[..|pat|] != pat by {
          assert s[..|pat|][0] == s[0];
        }
      } else {
        ReplaceShorterIsIdentity(s, pat, rep);
        ReplaceShorterIsIdentity(tail, pat, rep);
      }
    } else {
      assert p + tail == tail;
    }
  }

  /** Text shorter than the pattern is left alone. */
  lemma {:induction false} ReplaceShorterIsIdentity(s: string, pat: string, rep: string)
    requires |pat| > 0 && |s| < |pat|
    ensures Replace(s, pat, rep) == s
  {
  }

  /** `p in (a + p + b)` */
  lemma {:induction false} ContainsInfix(a: string, p: string, b: string)
    ensures Contains(a + p + b, p)
    decreases |a|
  {
    var s := a + p + b;
    if |a| == 0 {
      assert s[..|p|] == p;
    } else {
      ContainsInfix(a[1..], p, b);
      assert s[1..] == a[1..] + p + b;
    }
  }

  /** An occurrence in `a` is an occurrence in `a + b`. */
  lemma {:induction false} ContainsLeft(a: string, b: string, p: string)
    requires Contains(a, p)
    ensures Contains(a + b, p)
    decreases |a|
  {
    if StartsWith(a, p) {
      assert (a + b)[..|p|] == a[..|p|];
    } else {
      ContainsLeft(a[1..], b, p);
      assert (a + b)[1..] == a[1..] + b;
    }
  }

  /** An occurrence in `b` is an occurrence in `a + b`. */
  lemma {:induction false} ContainsRight(a: string, b: string, p: string)
    requires Contains(b, p)
    ensures Contains(a + b, p)
    decreases |a|
  {
    if |a| == 0 {
      assert a + b == b;
    } else {
      ContainsRight(a[1..], b, p);
      assert (a + b)[1..] == a[1..] + b;
    }
  }

  /** `p in sep.join(parts)` whenever `p` occurs in one of the parts. */
  lemma {:induction false} JoinContains(parts: seq<string>, sep: string, k: nat, p: string)
    requires k < |parts| && Contains(parts[k], p)
    ensures Contains(Join(parts, sep), p)
    decreases k
  {
    if |parts| > 1 {
      var rest := Join(parts[1..], sep);
      assert Join(parts, sep) == parts[0] + sep + rest;
      if k == 0 {
        ContainsLeft(parts[0], sep + rest, p);
        assert parts[0] + (sep + rest) == parts[0] + sep + rest;
      } else {
        JoinContains(parts[1..], sep, k - 1, p);
        ContainsRight(parts[0] + sep, rest, p);
      }
    }
  }

  /** `Contains` finds exactly the start positions where `p` occurs. */
  lemma {:induction false} ContainsAt(s: string, p: string)
    ensures Contains(s, p) <==> exists i :: 0 <= i <= |s| && StartsWith(s[i..], p)
    decreases |s|
  {
    if |s| > 0 {
      ContainsAt(s[1..], p);
      if Contains(s, p) {
        if StartsWith(s, p) {
          assert s[0..] == s;
        } else {
          var i :| 0 <= i <= |s[1..]| && StartsWith(s[1..][i..], p);
          assert s[1..][i..] == s[i + 1..];
        }
      } else {
        forall i | 0 <= i <= |s| ensures !StartsWith(s[i..], p) {
          if i == 0 {
            assert s[0..] == s;
          } else {
            assert s[1..][i - 1..] == s[i..];
          }
        }
      }
    } else {
      if Contains(s, p) {
        assert s[0..] == s;
      }
    }
  }

  /** `c in (a + b)` exactly when `c in a` or `c in b`. */
  lemma HasCharConcat(a: string, b: string, c: char)
    ensures HasChar(a + b, c) <==> HasChar(a, c) || HasChar(b, c)
  {
    if HasChar(a + b, c) {
      var i :| 0 <= i < |a + b| && (a + b)[i] == c;
      if i >= |a| {
        assert b[i - |a|] == c;
      } else {
        assert a[i] == c;
      }
    }
    if HasChar(a, c) {
      var i :| 0 <= i < |a| && a[i] == c;
      assert (a + b)[i] == c;
    }
    if HasChar(b, c) {
      var i :| 0 <= i < |b| && b[i] == c;
      assert (a + b)[i + |a|] == c;
    }
  }

  /** Joining pieces and a separator that all avoid `c` gives a string avoiding `c`. */
  lemma {:induction false} JoinAvoids(parts: seq<string>, sep: string, c: char)
    requires forall k :: 0 <= k < |parts| ==> !HasChar(parts[k], c)
    requires !HasChar(sep, c)
    ensures !HasChar(Join(parts, sep), c)
    decreases |parts|
  {
    if |parts| > 1 {
      JoinAvoids(parts[1..], sep, c);
      HasCharConcat(parts[0], sep, c);
      HasCharConcat(parts[0] + sep, Join(parts[1..], sep), c);
    } else if |parts| == 0 {
      assert Join(parts, sep) == "";
    }
  }

  /** A join begins with its first piece. */
  lemma JoinStartsWithFirst(parts: seq<string>, sep: string)
    requires |parts| > 0
    ensures StartsWith(Join(parts, sep), parts[0])
  {
    if |parts| > 1 {
      assert Join(parts, sep) == parts[0] + (sep + Join(parts[1..], sep));
    }
  }

  /**
    With a one-character separator, splitting around one occurrence splits
    each side independently: `(a + sep + b).split(sep) == a.split(sep) + b.split(sep)`.
   */
  lemma {:induction false} SplitAround(a: string, sep: string, b: string)
    requires |sep| == 1
    ensures Split(a + sep + b, sep) == Split(a, sep) + Split(b, sep)
    decreases |a|
  {
    var s := a + sep + b;
    if |a| == 0 {
      assert s == sep + b;
      SplitOneStep(s, sep);
    } else {
      var ra, rb := Split(a[1..], sep), Split(b, sep);
      assert s[1..] == a[1..] + sep + b;
      SplitAround(a[1..], sep, b);
      assert Split(s[1..], sep) == ra + rb;
      SplitOneStep(s, sep);
      SplitOneStep(a, sep);
      if a[0] == sep[0] {
        assert [""] + (ra + rb) == ([""] + ra) + rb;
      } else {
        ConsHeadAppend([a[0]], ra, rb);
      }
    }
  }

  /** Extending the first piece of a list commutes with appending more pieces. */
  lemma ConsHeadAppend(h: string, ra: seq<string>, rb: seq<string>)
    requires |ra| > 0
    ensures [h + (ra + rb)[0]] + (ra + rb)[1..] == ([h + ra[0]] + ra[1..]) + rb
  {
    assert (ra + rb)[0] == ra[0];
    assert (ra + rb)[1..] == ra[1..] + rb;
  }

  /** One unfolding of `Split` for a one-character separator. */
  lemma SplitOneStep(s: string, sep: string)
    requires |sep| == 1 && |s| > 0
    ensures s[0] == sep[0] ==> Split(s, sep) == [""] + Split(s[1..], sep)
    ensures s[0] != sep[0] ==>
      Split(s, sep) == [[s[0]] + Split(s[1..], sep)[0]] + Split(s[1..], sep)[1..]
  {
    if s[0] == sep[0] {
      assert s[..1] == sep;
    } else {
      assert s[..1] != sep;
    }
  }

  /** A single separator followed by something else is kept by the collapse. */
  lemma CollapseSingle(sep: string, rest: string)
    requires |sep| == 1 && |rest| > 0 && rest[0] != sep[0]
    ensures Replace(sep + rest, sep + sep, sep) == sep + Replace(rest, sep + sep, sep)
  {
    var t := sep + rest;
    assert t[..2] != sep + sep by {
      assert t[..2][1] == rest[0];
    }
    assert t[1..] == rest;
    assert [t[0]] == sep;
  }

  /**
    Collapsing doubled separators leaves a join of non-empty,
    separator-free lines unchanged: there is no doubled separator in it.
   */
  lemma {:induction false} CollapseKeepsJoin(lines: seq<string>, sep: string)
    requires |sep| == 1
    requires forall k :: 0 <= k < |lines| ==> |lines[k]| > 0 && !HasChar(lines[k], sep[0])
    ensures Replace(Join(lines, sep), sep + sep, sep) == Join(lines, sep)
    decreases |lines|
  {
    var pat := sep + sep;
    if |lines| == 1 {
      ReplaceSkipsPiece(lines[0], pat, sep, "");
      assert lines[0] + "" == lines[0];
    } else if |lines| > 1 {
      var rest := Join(lines[1..], sep);
      CollapseKeepsJoin(lines[1..], sep);
      assert rest[0] == lines[1][0] by {
        JoinStartsWithFirst(lines[1..], sep);
      }
      ReplaceSkipsPiece(lines[0], pat, sep, sep + rest);
      CollapseSingle(sep, rest);
      assert Join(lines, sep) == lines[0] + (sep + rest);
    }
  }

  /** A doubled separator collapses to one. */
  lemma CollapseDouble(sep: string, rest: string)
    requires |sep| == 1
    ensures Replace(sep + sep + rest, sep + sep, sep) == sep + Replace(rest, sep + sep, sep)
  {
    var t := sep + sep + rest;
    assert t[..2] == sep + sep;
    assert t[2..] == rest;
  }

  /** The lines that are not empty, in order. */
  function NonBlank(lines: seq<string>): (r: seq<string>)
    ensures |r| <= |lines|
    ensures forall k :: 0 <= k < |r| ==> r[k] != ""
  {
    if |lines| == 0 then []
    else (if lines[0] == "" then [] else [lines[0]]) + NonBlank(lines[1..])
  }

  /**
    Lines free of the separator, where empty lines only ever stand alone
    between two non-empty ones.
   */
  predicate SingleBlanks(lines: seq<string>, sep: string)
    requires |sep| == 1
  {
    && |lines| > 0 && lines[0] != "" && lines[|lines| - 1] != ""
    && (forall k :: 0 <= k < |lines| ==> !HasChar(lines[k], sep[0]))
    && (forall k :: 0 <= k < |lines| - 1 && lines[k] == "" ==> lines[k + 1] != "")
  }

  /** The join of a non-empty piece and a non-empty rest. */
  lemma JoinCons(x: string, rest: seq<string>, sep: string)
    requires |rest| > 0
    ensures Join([x] + rest, sep) == x + sep + Join(rest, sep)
  {
    assert ([x] + rest)[1..] == rest;
  }

  /** Filtering keeps a non-empty head. */
  lemma NonBlankCons(x: string, rest: seq<string>)
    requires x != ""
    ensures NonBlank([x] + rest) == [x] + NonBlank(rest)
  {
    assert ([x] + rest)[1..] == rest;
  }

  /** A blank line in front is dropped. */
  lemma NonBlankDropsBlank(rest: seq<string>)
    ensures NonBlank([""] + rest) == NonBlank(rest)
  {
    assert ([""] + rest)[1..] == rest;
  }

  /** Joining a non-empty line in front of the kept lines of `rest`. */
  lemma JoinNonBlankCons(x: string, rest: seq<string>, sep: string)
    requires |rest| > 0 && rest[0] != ""
    ensures Join([x] + NonBlank(rest), sep) == x + (sep + Join(NonBlank(rest), sep))
  {
    var kept := NonBlank(rest);
    assert |kept| > 0 by {
      NonBlankCons(rest[0], rest[1..]);
      assert [rest[0]] + rest[1..] == rest;
    }
    JoinCons(x, kept, sep);
  }

  /** A blank second line is dropped by the filter. */
  lemma NonBlankSkipsBlank(lines: seq<string>)
    requires |lines| > 1 && lines[0] != "" && lines[1] == ""
    ensures NonBlank(lines) == [lines[0]] + NonBlank(lines[2..])
  {
    assert lines[1..][1..] == lines[2..];
  }

  /** The collapse passes a first line followed by a single separator. */
  lemma CollapseFront(x: string, rest: seq<string>, sep: string)
    requires |sep| == 1 && !HasChar(x, sep[0])
    requires |rest| > 0 && rest[0] != "" && !HasChar(rest[0], sep[0])
    ensures Replace(Join([x] + rest, sep), sep + sep, sep)
         == x + (sep + Replace(Join(rest, sep), sep + sep, sep))
  {
    var pat := sep + sep;
    var jr := Join(rest, sep);
    assert jr[0] == rest[0][0] by {
      JoinStartsWithFirst(rest, sep);
    }
    assert rest[0][0] != sep[0];
    JoinCons(x, rest, sep);
    assert x + sep + jr == x + (sep + jr);
    ReplaceSkipsPiece(x, pat, sep, sep + jr);
    CollapseSingle(sep, jr);
  }

  /** The collapse turns a first line, a blank line and the rest into the first line and the rest. */
  lemma CollapseFrontBlank(lines: seq<string>, sep: string)
    requires |sep| == 1 && |lines| > 2 && lines[1] == "" && !HasChar(lines[0], sep[0])
    ensures Replace(Join(lines, sep), sep + sep, sep)
         == lines[0] + (sep + Replace(Join(lines[2..], sep), sep + sep, sep))
  {
    var pat := sep + sep;
    var jt := Join(lines[2..], sep);
    assert Join(lines, sep) == lines[0] + (sep + sep + jt) by {
      assert lines[1..][1..] == lines[2..];
      assert Join(lines[1..], sep) == "" + sep + jt;
      assert "" + sep + jt == sep + jt;
      assert lines[0] + sep + (sep + jt) == lines[0] + (sep + sep + jt);
    }
    ReplaceSkipsPiece(lines[0], pat, sep, sep + sep + jt);
    CollapseDouble(sep, jt);
  }

  /**
    `sep.join(lines).replace(sep + sep, sep)` drops the isolated empty
    lines: the collapse turns a layout with blank lines between the
    non-empty ones into the layout without them.
   */
  lemma {:induction false} CollapseRemovesBlankLines(lines: seq<string>, sep: string)
    requires |sep| == 1 && SingleBlanks(lines, sep)
    ensures Replace(Join(lines, sep), sep + sep, sep) == Join(NonBlank(lines), sep)
    decreases |lines|
  {
    if |lines| == 1 {
      ReplaceSkipsPiece(lines[0], sep + sep, sep, "");
      assert lines[0] + "" == lines[0];
      assert lines == [lines[0]] + [];
      NonBlankCons(lines[0], []);
    } else if lines[1] == "" {
      var tail := lines[2..];
      assert SingleBlanks(tail, sep) by {
        assert forall k :: 0 <= k < |tail| ==> tail[k] == lines[k + 2];
      }
      CollapseRemovesBlankLines(tail, sep);
      CollapseFrontBlank(lines, sep);
      NonBlankSkipsBlank(lines);
      JoinNonBlankCons(lines[0], tail, sep);
    } else {
      var rest := lines[1..];
      assert SingleBlanks(rest, sep) by {
        assert forall k :: 0 <= k < |rest| ==> rest[k] == lines[k + 1];
      }
      CollapseRemovesBlankLines(rest, sep);
      assert lines == [lines[0]] + rest;
      CollapseFront(lines[0], rest, sep);
      JoinNonBlankCons(lines[0], rest, sep);
      NonBlankCons(lines[0], rest);
    }
  }
}
