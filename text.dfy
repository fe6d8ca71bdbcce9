/**
 * String helpers shared by the dashboard model: ASCII case folding, substring
 * search, and the JavaScript `split`/`join` on a one-character separator together
 * with the `filter(Boolean)` that drops empty parts.
 *
 * JavaScript's `split(sep)` never returns an empty array: `"".split(".")` is `[""]`
 * and a separator at either end yields an empty part there. `join(sep)` of an
 * empty array is `""`. Both are reproduced exactly here.
 */
module Text {
  import Seqs

  /** `toLowerCase` restricted to ASCII letters. */
  function LowerChar(c: char): char {
    if 'A' <= c <= 'Z' then (c as int + 32) as char else c
  }

  /** `toUpperCase` restricted to ASCII letters. */
  function UpperChar(c: char): char {
    if 'a' <= c <= 'z' then (c as int - 32) as char else c
  }

  function Lower(s: string): (r: string)
    ensures |r| == |s|
    ensures forall i :: 0 <= i < |s| ==> r[i] == LowerChar(s[i])
  {
    if s == [] then [] else [LowerChar(s[0])] + Lower(s[1..])
  }

  lemma {:induction false} LowerConcat(a: string, b: string)
    ensures Lower(a + b) == Lower(a) + Lower(b)
    decreases |a|
  {
    if a == [] {
      assert a + b == b;
    } else {
      calc {
        Lower(a + b);
        { assert (a + b)[0] == a[0] && (a + b)[1..] == a[1..] + b; }
        [LowerChar(a[0])] + Lower(a[1..] + b);
        { LowerConcat(a[1..], b); }
        [LowerChar(a[0])] + (Lower(a[1..]) + Lower(b));
        ([LowerChar(a[0])] + Lower(a[1..])) + Lower(b);
      }
    }
  }

  predicate StartsWith(s: string, prefix: string) {
    |prefix| <= |s| && s[..|prefix|] == prefix
  }

  /** `s.includes(t)`: `t` occurs somewhere in `s` (the empty string occurs everywhere). */
  predicate Contains(s: string, t: string)
    decreases |s|
  {
    StartsWith(s, t) || (|s| > 0 && Contains(s[1..], t))
  }

  /** `t` occurs in `s` starting at index `i`. */
  predicate OccursAt(s: string, t: string, i: int) {
    0 <= i && i + |t| <= |s| && s[i..i + |t|] == t
  }

  /** `Contains` agrees with the positional definition of a substring. */
  lemma {:induction false} ContainsIff(s: string, t: string)
    ensures Contains(s, t) <==> exists i :: OccursAt(s, t, i)
    decreases |s|
  {
    if Contains(s, t) {
      if StartsWith(s, t) {
        assert OccursAt(s, t, 0);
      } else {
        ContainsIff(s[1..], t);
        var j :| OccursAt(s[1..], t, j);
        assert s[j + 1..j + 1 + |t|] == s[1..][j..j + |t|];
        assert OccursAt(s, t, j + 1);
      }
    }
    if exists i :: OccursAt(s, t, i) {
      var i :| OccursAt(s, t, i);
      if i == 0 {
        assert StartsWith(s, t);
      } else {
        assert s[1..][i - 1..i - 1 + |t|] == s[i..i + |t|];
        assert OccursAt(s[1..], t, i - 1);
        ContainsIff(s[1..], t);
      }
    }
  }

  /** Whatever occurs in `s` occurs in any string that has `s` as an infix. */
  lemma ContainsInfix(a: string, s: string, b: string, t: string)
    requires Contains(s, t)
    ensures Contains(a + s + b, t)
  {
    ContainsIff(s, t);
    var i :| OccursAt(s, t, i);
    assert (a + s + b)[|a| + i..|a| + i + |t|] == s[i..i + |t|];
    assert OccursAt(a + s + b, t, |a| + i);
    ContainsIff(a + s + b, t);
  }

  /** Nothing longer than a string occurs in it. */
  lemma {:induction false} ContainsNoLonger(s: string, t: string)
    requires Contains(s, t)
    ensures |t| <= |s|
    decreases |s|
  {
    if !StartsWith(s, t) {
      ContainsNoLonger(s[1..], t);
    }
  }

  /** Case-insensitive `contains`, as Prisma's `mode: 'insensitive'` filter. */
  predicate ContainsIgnoreCase(s: string, t: string) {
    Contains(Lower(s), Lower(t))
  }

  /** A text longer than a string never occurs in it, whatever the letter case. */
  lemma LongerNeverFound(s: string, t: string)
    requires |t| > |s|
    ensures !ContainsIgnoreCase(s, t)
  {
    if ContainsIgnoreCase(s, t) {
      ContainsNoLonger(Lower(s), Lower(t));
    }
  }

  /** Whatever occurs in `s`, ignoring case, occurs in any string with `s` as an infix. */
  lemma ContainsIgnoreCaseInfix(a: string, s: string, b: string, t: string)
    requires ContainsIgnoreCase(s, t)
    ensures ContainsIgnoreCase(a + s + b, t)
  {
    LowerConcat(a, s);
    LowerConcat(a + s, b);
    ContainsInfix(Lower(a), Lower(s), Lower(b), Lower(t));
  }

  /** The empty search text occurs in every string. */
  lemma ContainsEmpty(s: string)
    ensures ContainsIgnoreCase(s, "")
  {
    assert StartsWith(Lower(s), Lower(""));
  }

  /** A string always contains itself, whatever the case of its letters. */
  lemma ContainsSelf(s: string)
    ensures ContainsIgnoreCase(s, s)
  {
    assert Lower(s)[..|Lower(s)|] == Lower(s);
  }

  /** `parts.join([sep])`. */
  function Join(parts: seq<string>, sep: char): string {
    if |parts| == 0 then ""
    else if |parts| == 1 then parts[0]
    else parts[0] + [sep] + Join(parts[1..], sep)
  }

  /** `s.split(sep)`: never empty, and no part contains the separator. */
  function Split(s: string, sep: char): (r: seq<string>)
    ensures |r| >= 1
    ensures forall i :: 0 <= i < |r| ==> sep !in r[i]
  {
    if s == [] then [""]
    else
      var rest := Split(s[1..], sep);
      if s[0] == sep then [""] + rest
      else [[s[0]] + rest[0]] + rest[1..]
  }

  /** `Boolean` applied to a string: true exactly for a non-empty one. */
  predicate IsNonEmpty(p: string) {
    p != ""
  }

  /** `s.split(sep).filter(Boolean)`. */
  function SplitNonEmpty(s: string, sep: char): (r: seq<string>)
    ensures forall i :: 0 <= i < |r| ==> r[i] != "" && sep !in r[i]
  {
    Seqs.Filter(Split(s, sep), IsNonEmpty)
  }

  /** A part survives exactly when `split` produced it and it is not empty. */
  lemma SplitNonEmptyMembership(s: string, sep: char, p: string)
    ensures p in SplitNonEmpty(s, sep) <==> p in Split(s, sep) && p != ""
  {
    Seqs.FilterMembership(Split(s, sep), IsNonEmpty, p);
  }

  /** The parts a list may hold for `Join` then `Split` to give it back. */
  ghost predicate Separable(parts: seq<string>, sep: char) {
    forall i :: 0 <= i < |parts| ==> parts[i] != "" && sep !in parts[i]
  }

  lemma JoinCons(p: string, ps: seq<string>, sep: char)
    requires |ps| >= 1
    ensures Join([p] + ps, sep) == p + [sep] + Join(ps, sep)
  {
    assert ([p] + ps)[1..] == ps;
  }

  lemma JoinPrependChar(c: char, parts: seq<string>, sep: char)
    requires |parts| >= 1
    ensures Join([[c] + parts[0]] + parts[1..], sep) == [c] + Join(parts, sep)
  {
    if |parts| > 1 {
      JoinCons([c] + parts[0], parts[1..], sep);
      assert parts == [parts[0]] + parts[1..];
      JoinCons(parts[0], parts[1..], sep);
    }
  }

  /** Splitting and re-joining on the same separator gives the string back. */
  lemma {:induction false} JoinSplit(s: string, sep: char)
    ensures Join(Split(s, sep), sep) == s
    decreases |s|
  {
    if s != [] {
      var rest := Split(s[1..], sep);
      JoinSplit(s[1..], sep);
      if s[0] == sep {
        JoinCons("", rest, sep);
      } else {
        JoinPrependChar(s[0], rest, sep);
      }
      assert s == [s[0]] + s[1..];
    }
  }

  lemma {:induction false} SplitWithoutSep(a: string, sep: char)
    requires sep !in a
    ensures Split(a, sep) == [a]
    decreases |a|
  {
    if a != [] {
      SplitWithoutSep(a[1..], sep);
      assert a == [a[0]] + a[1..];
    }
  }

  /** How `Split` reads the first character of a non-empty string. */
  lemma SplitCons(c: char, t: string, sep: char)
    ensures c == sep ==> Split([c] + t, sep) == [""] + Split(t, sep)
    ensures c != sep ==> Split([c] + t, sep) == [[c] + Split(t, sep)[0]] + Split(t, sep)[1..]
  {
    assert ([c] + t)[0] == c && ([c] + t)[1..] == t;
  }

  /** A separator splits the string into the parts on either side of it. */
  lemma {:induction false} SplitConcat(a: string, b: string, sep: char)
    ensures Split(a + [sep] + b, sep) == Split(a, sep) + Split(b, sep)
    decreases |a|
  {
    if a == [] {
      assert a + [sep] + b == [sep] + b;
      SplitCons(sep, b, sep);
    } else {
      var t := a[1..] + [sep] + b;
      var ra, rb := Split(a[1..], sep), Split(b, sep);
      assert a + [sep] + b == [a[0]] + t;
      assert a == [a[0]] + a[1..];
      SplitConcat(a[1..], b, sep);
      assert Split(t, sep) == ra + rb;
      SplitCons(a[0], t, sep);
      SplitCons(a[0], a[1..], sep);
      if a[0] != sep {
        SplitHeadOfConcat(a[0], ra, rb);
      }
    }
  }

  lemma SplitHeadOfConcat(c: char, ra: seq<string>, rb: seq<string>)
    requires |ra| >= 1
    ensures [[c] + (ra + rb)[0]] + (ra + rb)[1..] == ([[c] + ra[0]] + ra[1..]) + rb
  {
    assert (ra + rb)[0] == ra[0];
    assert (ra + rb)[1..] == ra[1..] + rb;
  }

  /** Joining parts free of the separator and splitting again gives the parts back. */
  lemma {:induction false} SplitJoin(parts: seq<string>, sep: char)
    requires |parts| >= 1
    requires forall i :: 0 <= i < |parts| ==> sep !in parts[i]
    ensures Split(Join(parts, sep), sep) == parts
    decreases |parts|
  {
    if |parts| == 1 {
      SplitWithoutSep(parts[0], sep);
    } else {
      SplitConcat(parts[0], Join(parts[1..], sep), sep);
      SplitWithoutSep(parts[0], sep);
      SplitJoin(parts[1..], sep);
      assert parts == [parts[0]] + parts[1..];
    }
  }

  /**
   * The wire round trip of a filter list: `join` on the client, `split` plus
   * `filter(Boolean)` on the server recover every list of non-empty,
   * separator-free values, including the empty list.
   */
  lemma JoinThenSplitNonEmpty(parts: seq<string>, sep: char)
    requires Separable(parts, sep)
    ensures SplitNonEmpty(Join(parts, sep), sep) == parts
  {
    if |parts| == 0 {
      assert Split("", sep) == [""];
    } else {
      SplitJoin(parts, sep);
      Seqs.FilterAll(parts, IsNonEmpty);
    }
  }

  /** A leading separator contributes only an empty part, which is then dropped. */
  lemma SplitNonEmptyLeadingSep(s: string, sep: char)
    ensures SplitNonEmpty([sep] + s, sep) == SplitNonEmpty(s, sep)
  {
    assert [sep] + s == [] + [sep] + s;
    SplitConcat([], s, sep);
    Seqs.FilterConcat([""], Split(s, sep), IsNonEmpty);
  }

  /** Doubling a separator changes nothing once empty parts are dropped. */
  lemma SplitNonEmptyDoubleSep(a: string, b: string, sep: char)
    ensures SplitNonEmpty(a + [sep, sep] + b, sep) == SplitNonEmpty(a + [sep] + b, sep)
  {
    assert a + [sep, sep] + b == a + [sep] + ([sep] + b);
    SplitConcat(a, [sep] + b, sep);
    SplitConcat(a, b, sep);
    Seqs.FilterConcat(Split(a, sep), Split([sep] + b, sep), IsNonEmpty);
    Seqs.FilterConcat(Split(a, sep), Split(b, sep), IsNonEmpty);
    SplitNonEmptyLeadingSep(b, sep);
  }

  /** A trailing separator changes nothing once empty parts are dropped. */
  lemma SplitNonEmptyTrailingSep(a: string, sep: char)
    ensures SplitNonEmpty(a + [sep], sep) == SplitNonEmpty(a, sep)
  {
    assert a + [sep] == a + [sep] + [];
    SplitConcat(a, [], sep);
    Seqs.FilterConcat(Split(a, sep), [""], IsNonEmpty);
    assert Seqs.Filter([""], IsNonEmpty) == [];
  }
}
