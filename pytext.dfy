/** The Python string operations that monte_carlo_simulator_catching.py
    uses to read anchor points: `str.strip()`, `str.split(sep)`,
    `str.split()`, `str.replace(" ", "")` and the comprehension
    `[p.strip() for p in ps if p.strip()]`. Strings are sequences of code
    points. */
module PyText {

  /** The code point ranges, inclusive, of the characters `str.isspace()`
      accepts and `str.strip()` and `str.split()` treat as whitespace. */
  const SpaceRanges: seq<(int, int)> :=
    [(9, 13), (28, 32), (0x85, 0x85), (0xA0, 0xA0), (0x1680, 0x1680), (0x2000, 0x200A),
     (0x2028, 0x2029), (0x202F, 0x202F), (0x205F, 0x205F), (0x3000, 0x3000)]

  predicate InRanges(n: int, ranges: seq<(int, int)>)
  {
    ranges != [] && (ranges[0].0 <= n <= ranges[0].1 || InRanges(n, ranges[1..]))
  }

  predicate IsSpace(c: char)
  {
    InRanges(c as int, SpaceRanges)
  }

  predicate AllSpace(s: string)
  {
    forall i :: 0 <= i < |s| ==> IsSpace(s[i])
  }

  /** `s.lstrip()`. */
  function TrimStart(s: string): (r: string)
    ensures |r| <= |s| && r == s[|s| - |r|..]
    ensures r != [] ==> !IsSpace(r[0])
    ensures forall k :: 0 <= k < |s| - |r| ==> IsSpace(s[k])
  {
    if s != [] && IsSpace(s[0]) then
      var r := TrimStart(s[1..]);
      assert forall k :: 1 <= k < |s| - |r| ==> s[k] == s[1..][k - 1];
      r
    else s
  }

  /** `s.rstrip()`. */
  function TrimEnd(s: string): (r: string)
    ensures |r| <= |s| && r == s[..|r|]
    ensures r != [] ==> !IsSpace(r[|r| - 1])
    ensures forall k :: |r| <= k < |s| ==> IsSpace(s[k])
  {
    if s != [] && IsSpace(s[|s| - 1]) then
      var r := TrimEnd(s[..|s| - 1]);
      assert forall k :: |r| <= k < |s| - 1 ==> s[k] == s[..|s| - 1][k];
      r
    else s
  }

  /** `s.strip()`: `s` without its leading and trailing whitespace. */
  function Strip(s: string): (r: string)
    ensures |r| <= |s|
    ensures r != [] ==> !IsSpace(r[0]) && !IsSpace(r[|r| - 1])
  {
    TrimEnd(TrimStart(s))
  }

  /** `s.strip()` is `s` with a whitespace prefix and a whitespace suffix
      cut off; with its non-space ends this pins down the result. */
  lemma StripOuterSpace(s: string)
    ensures exists p :: OuterSpaceCut(s, p, Strip(s))
  {
    var t := TrimStart(s);
    var r := TrimEnd(t);
    var p := |s| - |t|;
    assert r == s[p..p + |r|];
    var prefix, suffix := s[..p], s[p + |r|..];
    forall k | 0 <= k < |prefix| ensures IsSpace(prefix[k]) {
      assert prefix[k] == s[k];
    }
    forall k | 0 <= k < |suffix| ensures IsSpace(suffix[k]) {
      assert suffix[k] == t[|r| + k];
    }
    assert r == Strip(s) && OuterSpaceCut(s, p, r);
  }

  /** `r` is `s` with the whitespace `s[..p]` cut off the front and the
      whitespace after `r` cut off the back. */
  ghost predicate OuterSpaceCut(s: string, p: int, r: string)
  {
    && 0 <= p <= |s| - |r|
    && r == s[p..p + |r|]
    && AllSpace(s[..p])
    && AllSpace(s[p + |r|..])
  }

  /** Stripping only removes characters. */
  lemma StripChars(s: string)
    ensures forall c :: c in Strip(s) ==> c in s
  {
    var t := TrimStart(s);
    assert Strip(s) == s[|s| - |t|..][..|Strip(s)|];
  }

  /** A string is dropped as blank (`if p.strip()` is false) exactly when
      it is all whitespace. */
  lemma StripBlank(s: string)
    ensures Strip(s) == [] <==> AllSpace(s)
  {

  }

  /** Stripping a string without outer whitespace leaves it unchanged. */
  lemma StripUnchanged(s: string)
    requires s == [] || (!IsSpace(s[0]) && !IsSpace(s[|s| - 1]))
    ensures Strip(s) == s
  {
  }

  /** `str.split`: the pieces of `s` between the characters satisfying
      `isSep`, empty pieces included. */
  function SplitWhere(s: string, isSep: char -> bool): (r: seq<string>)
    ensures |r| >= 1
  {
    if s == [] then [""]
    else
      var rest := SplitWhere(s[1..], isSep);
      if isSep(s[0]) then [""] + rest
      else [[s[0]] + rest[0]] + rest[1..]
  }

  /** Every piece is made of characters of `s` that are not separators. */
  lemma {:induction false} SplitWherePieces(s: string, isSep: char -> bool)
    ensures forall i :: 0 <= i < |SplitWhere(s, isSep)| ==>
      forall c :: c in SplitWhere(s, isSep)[i] ==> c in s && !isSep(c)
    decreases |s|
  {
    if s != [] {
      var rest := SplitWhere(s[1..], isSep);
      var r := SplitWhere(s, isSep);
      SplitWherePieces(s[1..], isSep);
      assert forall c :: c in s[1..] ==> c in s;
      if isSep(s[0]) {
        assert forall i :: 1 <= i < |r| ==> r[i] == rest[i - 1];
      } else {
        assert forall i :: 1 <= i < |r| ==> r[i] == rest[i];
      }
    }
  }

  /** `s.split(sep)`. */
  function Split(s: string, sep: char): (r: seq<string>)
    ensures |r| >= 1
  {
    SplitWhere(s, c => c == sep)
  }

  /** No piece of `s.split(sep)` holds `sep`, and each is made of characters of `s`. */
  lemma SplitPieces(s: string, sep: char)
    ensures forall i :: 0 <= i < |Split(s, sep)| ==>
      sep !in Split(s, sep)[i] && forall c :: c in Split(s, sep)[i] ==> c in s
  {
    SplitWherePieces(s, c => c == sep);
  }

  /** `sep.join(parts)`. */
  function Join(parts: seq<string>, sep: char): string
    requires |parts| >= 1
  {
    if |parts| == 1 then parts[0] else parts[0] + [sep] + Join(parts[1..], sep)
  }

  lemma {:induction false} JoinSplitWhere(s: string, sep: char, isSep: char -> bool)
    requires forall c :: isSep(c) <==> c == sep
    ensures Join(SplitWhere(s, isSep), sep) == s
    decreases |s|
  {
    if s != [] {
      var rest := SplitWhere(s[1..], isSep);
      JoinSplitWhere(s[1..], sep, isSep);
      if !isSep(s[0]) && |rest| > 1 {
        assert ([[s[0]] + rest[0]] + rest[1..])[1..] == rest[1..];
      }
    }
  }

  /** Joining the pieces of a split gives back the string. */
  lemma JoinSplit(s: string, sep: char)
    ensures Join(Split(s, sep), sep) == s
  {
    JoinSplitWhere(s, sep, c => c == sep);
  }

  /** No character of `p` is a separator. */
  ghost predicate SepFree(p: string, isSep: char -> bool)
  {
    forall c :: c in p ==> !isSep(c)
  }

  /** Splitting a join gives back the pieces when the joining character is
      a separator and no piece holds a separator. */
  lemma {:induction false} SplitWhereJoin(parts: seq<string>, sep: char, isSep: char -> bool)
    requires |parts| >= 1 && isSep(sep)
    requires forall i :: 0 <= i < |parts| ==> SepFree(parts[i], isSep)
    ensures SplitWhere(Join(parts, sep), isSep) == parts
    decreases |parts|, |parts[0]|
  {
    if |parts[0]| > 0 {
      var c := parts[0][0];
      var p := [parts[0][1..]] + parts[1..];
      assert !isSep(c) by {
        assert SepFree(parts[0], isSep) && c in parts[0];
      }
      assert SepFree(p[0], isSep) by {
        assert forall x :: x in parts[0][1..] ==> x in parts[0];
        assert SepFree(parts[0], isSep);
      }
      assert forall i :: 1 <= i < |p| ==> p[i] == parts[i];
      SplitWhereJoin(p, sep, isSep);
      SplitWhereJoinStep(parts, sep, isSep);
    } else if |parts| > 1 {
      assert forall i :: 0 <= i < |parts| - 1 ==> parts[1..][i] == parts[i + 1];
      SplitWhereJoin(parts[1..], sep, isSep);
      assert Join(parts, sep) == [sep] + Join(parts[1..], sep);
      assert Join(parts, sep)[1..] == Join(parts[1..], sep);
    }
  }

  /** The step of `SplitWhereJoin` that peels a non-separator character
      off the first piece. */
  lemma SplitWhereJoinStep(parts: seq<string>, sep: char, isSep: char -> bool)
    requires |parts| >= 1 && |parts[0]| > 0 && !isSep(parts[0][0])
    requires SplitWhere(Join([parts[0][1..]] + parts[1..], sep), isSep) == [parts[0][1..]] + parts[1..]
    ensures SplitWhere(Join(parts, sep), isSep) == parts
  {
    var c, p := parts[0][0], [parts[0][1..]] + parts[1..];
    JoinFirstChar(parts, sep);
    assert Join(parts, sep)[1..] == Join(p, sep);
    assert [c] + parts[0][1..] == parts[0];
    assert p[1..] == parts[1..];
    assert parts == [[c] + p[0]] + p[1..];
  }

  /** A join starts with the first character of its first piece, if any. */
  lemma JoinFirstChar(parts: seq<string>, sep: char)
    requires |parts| >= 1 && |parts[0]| > 0
    ensures Join(parts, sep) == [parts[0][0]] + Join([parts[0][1..]] + parts[1..], sep)
  {
    var p := [parts[0][1..]] + parts[1..];
    if |parts| > 1 {
      assert p[1..] == parts[1..];
    }
    assert parts[0] == [parts[0][0]] + parts[0][1..];
  }

  /** Splitting a join gives back the pieces when none holds the separator. */
  lemma SplitJoin(parts: seq<string>, sep: char)
    requires |parts| >= 1
    requires forall i :: 0 <= i < |parts| ==> sep !in parts[i]
    ensures Split(Join(parts, sep), sep) == parts
  {
    forall i | 0 <= i < |parts| ensures SepFree(parts[i], c => c == sep) {
    }
    SplitWhereJoin(parts, sep, c => c == sep);
  }

  /** `[p.strip() for p in ps if p.strip()]`. */
  function StrippedNonBlank(ps: seq<string>): (r: seq<string>)
    ensures |r| <= |ps|
  {
    if ps == [] then []
    else
      var t := Strip(ps[0]);
      if t != [] then [t] + StrippedNonBlank(ps[1..]) else StrippedNonBlank(ps[1..])
  }

  /** A piece `if p.strip()` keeps, after `.strip()`. */
  predicate StrippedPiece(p: string)
  {
    p != [] && !IsSpace(p[0]) && !IsSpace(p[|p| - 1])
  }

  /** Every piece the comprehension keeps is non-empty and stripped. */
  lemma {:induction false} StrippedNonBlankShape(ps: seq<string>)
    ensures forall i :: 0 <= i < |StrippedNonBlank(ps)| ==> StrippedPiece(StrippedNonBlank(ps)[i])
  {
    if ps != [] {
      var t, rest := Strip(ps[0]), StrippedNonBlank(ps[1..]);
      StrippedNonBlankShape(ps[1..]);
      if t != [] {
        var r := [t] + rest;
        assert StrippedNonBlank(ps) == r;
        forall i | 0 <= i < |r| ensures StrippedPiece(r[i]) {
          if i > 0 {
            assert r[i] == rest[i - 1];
          }
        }
      }
    }
  }

  /** The comprehension keeps, stripped and in order, exactly the pieces
      that are not all whitespace. */
  lemma {:induction false} StrippedNonBlankKeeps(ps: seq<string>)
    ensures StrippedNonBlank(ps) == StrippedOf(NonBlank(ps))
  {
    if ps != [] {
      StripBlank(ps[0]);
      StrippedNonBlankKeeps(ps[1..]);
    }
  }

  /** The pieces that are not all whitespace, in order. */
  function NonBlank(ps: seq<string>): (r: seq<string>)
    ensures forall i :: 0 <= i < |r| ==> !AllSpace(r[i]) && r[i] in ps
  {
    if ps == [] then []
    else if AllSpace(ps[0]) then NonBlank(ps[1..])
    else [ps[0]] + NonBlank(ps[1..])
  }

  function StrippedOf(ps: seq<string>): (r: seq<string>)
    ensures |r| == |ps| && forall i :: 0 <= i < |ps| ==> r[i] == Strip(ps[i])
  {
    if ps == [] then [] else [Strip(ps[0])] + StrippedOf(ps[1..])
  }

  /** Pieces that are already stripped and not blank pass through unchanged. */
  lemma {:induction false} StrippedNonBlankUnchanged(ps: seq<string>)
    requires forall i :: 0 <= i < |ps| ==> StrippedPiece(ps[i])
    ensures StrippedNonBlank(ps) == ps
  {
    if ps != [] {
      StripUnchanged(ps[0]);
      StrippedNonBlankUnchanged(ps[1..]);
    }
  }

  /** `s.split()`: the maximal runs of non-whitespace characters. */
  function Words(s: string): (r: seq<string>)
  {
    NonEmpty(SplitWhere(s, IsSpace))
  }

  /** Every word is non-empty and made of non-whitespace characters of `s`. */
  lemma WordsShape(s: string)
    ensures forall i :: 0 <= i < |Words(s)| ==>
      Words(s)[i] != [] && forall c :: c in Words(s)[i] ==> c in s && !IsSpace(c)
  {
    SplitWherePieces(s, IsSpace);
    assert forall i :: 0 <= i < |Words(s)| ==> Words(s)[i] in Words(s);
  }

  /** Words joined by single spaces split back into those words. */
  lemma WordsJoin(ws: seq<string>)
    requires |ws| >= 1
    requires forall i :: 0 <= i < |ws| ==> ws[i] != [] && forall c :: c in ws[i] ==> !IsSpace(c)
    ensures Words(Join(ws, ' ')) == ws
  {
    assert IsSpace(' ');
    assert forall i :: 0 <= i < |ws| ==> SepFree(ws[i], IsSpace);
    SplitWhereJoin(ws, ' ', IsSpace);
    NonEmptyUnchanged(ws);
  }

  /** `[t for t in ps if t]`: the non-empty pieces. */
  function NonEmpty(ps: seq<string>): (r: seq<string>)
    ensures |r| <= |ps|
    ensures forall p :: p in r <==> p in ps && p != []
  {
    if ps == [] then []
    else
      assert ps == [ps[0]] + ps[1..];
      if ps[0] == [] then NonEmpty(ps[1..])
      else [ps[0]] + NonEmpty(ps[1..])
  }

  /** The filter works piece by piece: it keeps, in order, the non-empty
      pieces of each part of the list. */
  lemma {:induction false} NonEmptyConcat(ps: seq<string>, qs: seq<string>)
    ensures NonEmpty(ps + qs) == NonEmpty(ps) + NonEmpty(qs)
  {
    if ps == [] {
      assert ps + qs == qs;
    } else {
      assert (ps + qs)[1..] == ps[1..] + qs;
      NonEmptyConcat(ps[1..], qs);
    }
  }

  /** A single piece is kept exactly when it is non-empty. */
  lemma NonEmptySingle(p: string)
    ensures NonEmpty([p]) == if p == [] then [] else [p]
  {
    assert [p][1..] == [];
  }

  /** Non-empty pieces pass through unchanged. */
  lemma {:induction false} NonEmptyUnchanged(ps: seq<string>)
    requires forall i :: 0 <= i < |ps| ==> ps[i] != []
    ensures NonEmpty(ps) == ps
  {
    if ps != [] {
      NonEmptyUnchanged(ps[1..]);
    }
  }

  /** `s.replace(" ", "")`. */
  function RemoveSpaces(s: string): (r: string)
    ensures |r| <= |s|
  {
    if s == [] then []
    else if s[0] == ' ' then RemoveSpaces(s[1..])
    else [s[0]] + RemoveSpaces(s[1..])
  }

  /** `s.replace(" ", "")` keeps exactly the characters of `s` other than
      the space. */
  lemma {:induction false} RemoveSpacesChars(s: string)
    ensures forall c :: c in RemoveSpaces(s) <==> c in s && c != ' '
  {
    if s != [] {
      RemoveSpacesChars(s[1..]);
      assert s == [s[0]] + s[1..];
    }
  }

  /** `replace` works character by character: removing the spaces of a
      concatenation removes them from each part, so the kept characters
      stay in order with their multiplicity. */
  lemma {:induction false} RemoveSpacesConcat(s: string, t: string)
    ensures RemoveSpaces(s + t) == RemoveSpaces(s) + RemoveSpaces(t)
  {
    if s == [] {
      assert s + t == t;
    } else {
      assert (s + t)[1..] == s[1..] + t;
      RemoveSpacesConcat(s[1..], t);
    }
  }

  /** One character is dropped exactly when it is a space. */
  lemma RemoveSpacesSingle(c: char)
    ensures RemoveSpaces([c]) == if c == ' ' then [] else [c]
  {
    assert [c][1..] == [];
  }

  lemma {:induction false} RemoveSpacesUnchanged(s: string)
    requires ' ' !in s
    ensures RemoveSpaces(s) == s
  {
    if s != [] {
      RemoveSpacesUnchanged(s[1..]);
    }
  }
}
