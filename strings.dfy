/** String helpers shared by the model: the small part of Swift's String API
    that the app relies on (`contains`, `hasPrefix`, `hasSuffix`,
    `trimmingCharacters`, `split(separator:)`, `joined(separator:)`,
    `uppercased`, integer interpolation). Strings are sequences of characters;
    grapheme clustering is not modelled. */
module Strings {

  datatype Option<+T> = None | Some(value: T)

  predicate StartsWith(s: string, p: string) {
    |p| <= |s| && s[..|p|] == p
  }

  predicate EndsWith(s: string, p: string) {
    |p| <= |s| && s[|s| - |p|..] == p
  }

  /** Swift's `String.contains(_:)` for a string argument. */
  predicate Contains(s: string, sub: string)
    decreases |s|
  {
    StartsWith(s, sub) || (|s| > 0 && Contains(s[1..], sub))
  }

  lemma {:induction false} ContainsAt(s: string, sub: string, i: nat)
    requires i + |sub| <= |s| && s[i..i + |sub|] == sub
    ensures Contains(s, sub)
    decreases i
  {
    if i > 0 {
      assert s[1..][i - 1..i - 1 + |sub|] == sub;
      ContainsAt(s[1..], sub, i - 1);
    }
  }

  lemma {:induction false} ShorterNotContained(s: string, sub: string)
    requires |s| < |sub|
    ensures !Contains(s, sub)
    decreases |s|
  {
    if |s| > 0 {
      ShorterNotContained(s[1..], sub);
    }
  }

  /** Appending a character that does not occur in `sub` cannot create an
      occurrence of `sub`. */
  lemma {:induction false} ContainsAppendFree(s: string, c: char, sub: string)
    requires c !in sub
    ensures Contains(s + [c], sub) ==> Contains(s, sub)
    decreases |s|
  {
    if Contains(s + [c], sub) && !StartsWith(s + [c], sub) && |s| > 0 {
      assert (s + [c])[1..] == s[1..] + [c];
      ContainsAppendFree(s[1..], c, sub);
    } else if StartsWith(s + [c], sub) {
      var t := s + [c];
      assert t[|s|] == c;
      assert |sub| <= |s| by {
        assert forall i :: 0 <= i < |sub| ==> sub[i] == t[i] && sub[i] != c;
      }
      assert s[..|sub|] == t[..|sub|];
    }
  }

  predicate NoChar(s: string, c: char) {
    forall i :: 0 <= i < |s| ==> s[i] != c
  }

  // ---------------------------------------------------------------------
  // trimmingCharacters(in: CharacterSet(charactersIn: "/"))
  // ---------------------------------------------------------------------

  function DropLeading(s: string, c: char): string
    decreases |s|
  {
    if |s| > 0 && s[0] == c then DropLeading(s[1..], c) else s
  }

  /** What is dropped is a run of `c`; what is kept is the rest of `s`, and
      it does not start with `c`. */
  lemma {:induction false} DropLeadingShape(s: string, c: char)
    ensures var r := DropLeading(s, c);
      |r| <= |s| && r == s[|s| - |r|..] && (r == [] || r[0] != c)
      && forall i :: 0 <= i < |s| - |r| ==> s[i] == c
    decreases |s|
  {
    if |s| > 0 && s[0] == c {
      var t := s[1..];
      DropLeadingShape(t, c);
      var r := DropLeading(s, c);
      assert r == DropLeading(t, c);
      assert t[|t| - |r|..] == s[|s| - |r|..];
      forall i | 0 <= i < |s| - |r| ensures s[i] == c {
        if i > 0 { assert s[i] == t[i - 1]; }
      }
    }
  }

  function DropTrailing(s: string, c: char): string
    decreases |s|
  {
    if |s| > 0 && s[|s| - 1] == c then DropTrailing(s[..|s| - 1], c) else s
  }

  /** What is dropped is a run of `c`; what is kept is the start of `s`, and
      it does not end with `c`. */
  lemma {:induction false} DropTrailingShape(s: string, c: char)
    ensures var r := DropTrailing(s, c);
      |r| <= |s| && r == s[..|r|] && (r == [] || r[|r| - 1] != c)
      && forall i :: |r| <= i < |s| ==> s[i] == c
    decreases |s|
  {
    if |s| > 0 && s[|s| - 1] == c {
      var t := s[..|s| - 1];
      DropTrailingShape(t, c);
      var r := DropTrailing(s, c);
      assert r == DropTrailing(t, c);
      assert t[..|r|] == s[..|r|];
      forall i | |r| <= i < |s| ensures s[i] == c {
        if i < |s| - 1 { assert s[i] == t[i]; }
      }
    }
  }

  /** Removes every leading and every trailing `c`. */
  function Trim(s: string, c: char): string {
    DropTrailing(DropLeading(s, c), c)
  }

  /** The trimmed string is the piece of `s` between its leading and its
      trailing run of `c`, and has no `c` at either end. */
  lemma TrimShape(s: string, c: char)
    ensures var k := |s| - |DropLeading(s, c)|; var r := Trim(s, c);
      |DropLeading(s, c)| <= |s| && k + |r| <= |s| && s[k..k + |r|] == r
      && (forall i :: 0 <= i < k ==> s[i] == c)
      && (forall i :: k + |r| <= i < |s| ==> s[i] == c)
      && (r == [] || (r[0] != c && r[|r| - 1] != c))
  {
    var d := DropLeading(s, c);
    DropLeadingShape(s, c);
    DropTrailingShape(d, c);
    var k := |s| - |d|;
    var r := Trim(s, c);
    assert r == DropTrailing(d, c);
    assert s[k..k + |r|] == d[..|r|];
    forall i | k + |r| <= i < |s| ensures s[i] == c {
      assert s[i] == d[i - k];
    }
    if r != [] {
      assert r[0] == d[0];
    }
  }

  lemma TrimOfClean(s: string, c: char)
    requires s == [] || (s[0] != c && s[|s| - 1] != c)
    ensures Trim(s, c) == s
  {
    assert DropLeading(s, c) == s;
  }

  /** Trimming leaves nothing exactly when every character is `c`. */
  lemma TrimEmptyIff(s: string, c: char)
    ensures Trim(s, c) == [] <==> forall i :: 0 <= i < |s| ==> s[i] == c
  {
    TrimShape(s, c);
    DropLeadingShape(s, c);
    var d := DropLeading(s, c);
    assert d != [] ==> d[0] == s[|s| - |d|];
    if forall i :: 0 <= i < |s| ==> s[i] == c {
      assert Trim(s, c) == DropTrailing([], c);
    }
  }

  // ---------------------------------------------------------------------
  // split(separator:) with empty pieces omitted, and joined(separator:)
  // ---------------------------------------------------------------------

  /** Swift's `split(separator: sep)` (which omits empty pieces); `cur` is the
      piece read so far. */
  function Split(s: string, sep: char, cur: string): seq<string>
    decreases |s|
  {
    if s == [] then (if cur == [] then [] else [cur])
    else if s[0] == sep then (if cur == [] then [] else [cur]) + Split(s[1..], sep, [])
    else Split(s[1..], sep, cur + [s[0]])
  }

  /** A piece of a split: non-empty and free of the separator. */
  predicate Piece(p: string, sep: char) {
    p != [] && NoChar(p, sep)
  }

  lemma {:induction false} SplitPieces(s: string, sep: char, cur: string)
    requires NoChar(cur, sep)
    ensures forall k :: 0 <= k < |Split(s, sep, cur)| ==> Piece(Split(s, sep, cur)[k], sep)
    decreases |s|
  {
    if s == [] {
    } else if s[0] == sep {
      SplitPieces(s[1..], sep, []);
    } else {
      SplitPieces(s[1..], sep, cur + [s[0]]);
    }
  }

  /** A split is empty exactly when neither the pending piece nor the rest
      holds a non-separator character. */
  lemma {:induction false} SplitEmptyIff(s: string, sep: char, cur: string)
    ensures Split(s, sep, cur) == [] <==> cur == [] && forall i :: 0 <= i < |s| ==> s[i] == sep
    decreases |s|
  {
    if s == [] {
    } else if s[0] == sep {
      SplitEmptyIff(s[1..], sep, []);
      if Split(s, sep, cur) == [] {
        forall i | 0 <= i < |s| ensures s[i] == sep {
          if i > 0 { assert s[1..][i - 1] == s[i]; }
        }
      }
    } else {
      SplitEmptyIff(s[1..], sep, cur + [s[0]]);
    }
  }

  /** Splitting a trailing separator off makes no difference. */
  lemma {:induction false} SplitTrailingSep(s: string, sep: char, cur: string)
    ensures Split(s + [sep], sep, cur) == Split(s, sep, cur)
    decreases |s|
  {
    if s == [] {
      assert [sep][1..] == [];
    } else if s[0] == sep {
      assert (s + [sep])[1..] == s[1..] + [sep];
      SplitTrailingSep(s[1..], sep, []);
    } else {
      assert (s + [sep])[1..] == s[1..] + [sep];
      SplitTrailingSep(s[1..], sep, cur + [s[0]]);
    }
  }

  lemma {:induction false} SplitTrailingSeps(s: string, sep: char, n: nat, cur: string)
    requires n <= |s| && forall i :: |s| - n <= i < |s| ==> s[i] == sep
    ensures Split(s, sep, cur) == Split(s[..|s| - n], sep, cur)
    decreases n
  {
    if n > 0 {
      var t := s[..|s| - 1];
      assert s == t + [sep];
      SplitTrailingSep(t, sep, cur);
      forall i | |t| - (n - 1) <= i < |t| ensures t[i] == sep {
        assert t[i] == s[i];
      }
      SplitTrailingSeps(t, sep, n - 1, cur);
      assert t[..|t| - (n - 1)] == s[..|s| - n];
      calc {
        Split(s, sep, cur);
        Split(t + [sep], sep, cur);
        Split(t, sep, cur);
        Split(t[..|t| - (n - 1)], sep, cur);
        Split(s[..|s| - n], sep, cur);
      }
    } else {
      assert s[..|s|] == s;
    }
  }

  lemma {:induction false} SplitLeadingSeps(s: string, sep: char, n: nat)
    requires n <= |s| && forall i :: 0 <= i < n ==> s[i] == sep
    ensures Split(s, sep, []) == Split(s[n..], sep, [])
    decreases n
  {
    if n > 0 {
      SplitLeadingSeps(s[1..], sep, n - 1);
      assert s[1..][n - 1..] == s[n..];
    }
  }

  /** Characters free of the separator are absorbed into the pending piece. */
  lemma {:induction false} SplitAbsorb(x: string, t: string, sep: char, cur: string)
    requires NoChar(x, sep)
    ensures Split(x + t, sep, cur) == Split(t, sep, cur + x)
    decreases |x|
  {
    if x == [] {
      assert x + t == t;
      assert cur + x == cur;
    } else {
      assert (x + t)[0] == x[0];
      assert (x + t)[1..] == x[1..] + t;
      SplitAbsorb(x[1..], t, sep, cur + [x[0]]);
      assert cur + [x[0]] + x[1..] == cur + x;
    }
  }

  function Join(parts: seq<string>, sep: char): string
    decreases |parts|
  {
    if |parts| == 0 then []
    else if |parts| == 1 then parts[0]
    else parts[0] + [sep] + Join(parts[1..], sep)
  }

  /** Splitting undoes joining, whenever every part is a proper piece. */
  lemma {:induction false} SplitJoin(parts: seq<string>, sep: char)
    requires forall k :: 0 <= k < |parts| ==> Piece(parts[k], sep)
    ensures Split(Join(parts, sep), sep, []) == parts
    decreases |parts|
  {
    if |parts| == 1 {
      SplitAbsorb(parts[0], [], sep, []);
      assert parts[0] + [] == parts[0];
      assert [] + parts[0] == parts[0];
    } else if |parts| > 1 {
      var a := parts[0];
      var rest := Join(parts[1..], sep);
      assert Join(parts, sep) == a + ([sep] + rest);
      SplitAbsorb(a, [sep] + rest, sep, []);
      assert [] + a == a;
      assert ([sep] + rest)[0] == sep;
      assert ([sep] + rest)[1..] == rest;
      assert Split([sep] + rest, sep, a) == [a] + Split(rest, sep, []);
      SplitJoin(parts[1..], sep);
      assert [a] + parts[1..] == parts;
    }
  }

  /** A "clean" path: no separator at either end and never two in a row. */
  ghost predicate Clean(s: string, sep: char) {
    (s == [] || (s[0] != sep && s[|s| - 1] != sep))
    && forall i, j :: 0 <= i < j < |s| && j == i + 1 ==> !(s[i] == sep && s[j] == sep)
  }

  lemma {:induction false} JoinClean(parts: seq<string>, sep: char)
    requires forall k :: 0 <= k < |parts| ==> Piece(parts[k], sep)
    ensures Clean(Join(parts, sep), sep)
    ensures parts != [] ==> Join(parts, sep) != []
    decreases |parts|
  {
    if |parts| > 1 {
      JoinClean(parts[1..], sep);
      var a, r := parts[0], Join(parts[1..], sep);
      var j := a + [sep] + r;
      forall i, k | 0 <= i && k == i + 1 && k < |j| ensures !(j[i] == sep && j[k] == sep) {
        if i < |a| - 1 {
          assert j[i] == a[i];
        } else if i == |a| - 1 {
          assert j[i] == a[i];
        } else if i == |a| {
          assert j[i + 1] == r[0];
        } else {
          assert j[i] == r[i - |a| - 1] && j[i + 1] == r[i - |a|];
        }
      }
    }
  }

  /** A suffix of a clean string that starts with a non-separator is clean. */
  lemma CleanSuffix(s: string, sep: char, j: nat)
    requires Clean(s, sep) && j < |s| && s[j] != sep
    ensures Clean(s[j..], sep)
  {
    var t := s[j..];
    assert t[|t| - 1] == s[|s| - 1];
    forall i, k | 0 <= i && k == i + 1 && k < |t| ensures !(t[i] == sep && t[k] == sep) {
      assert t[i] == s[j + i] && t[k] == s[j + k];
    }
  }

  /** The index of the first `sep` in `s`, or `|s|` when there is none. */
  function SepIndex(s: string, sep: char): (i: nat)
    ensures i <= |s| && NoChar(s[..i], sep)
    ensures i < |s| ==> s[i] == sep
    decreases |s|
  {
    if s == [] || s[0] == sep then 0
    else
      var k := SepIndex(s[1..], sep);
      assert s[..k + 1] == [s[0]] + s[1..][..k];
      k + 1
  }

  lemma JoinCons(x: string, rest: seq<string>, sep: char)
    requires rest != []
    ensures Join([x] + rest, sep) == x + [sep] + Join(rest, sep)
  {
    assert ([x] + rest)[1..] == rest;
  }

  /** A separator ends the piece in front of it. */
  lemma SplitAtSep(x: string, t: string, sep: char)
    requires Piece(x, sep)
    ensures Split(x + ([sep] + t), sep, []) == [x] + Split(t, sep, [])
  {
    SplitAbsorb(x, [sep] + t, sep, []);
    assert [] + x == x;
    assert ([sep] + t)[1..] == t;
  }

  /** A separator-free string is its own single piece (or no piece). */
  lemma JoinSplitNoSep(s: string, sep: char)
    requires NoChar(s, sep)
    ensures Join(Split(s, sep, []), sep) == s
  {
    SplitAbsorb(s, [], sep, []);
    assert s + [] == s;
    assert [] + s == s;
  }

  /** A piece, a separator, and a string that joins back from its pieces and
      starts with a non-separator: the whole joins back too. */
  lemma JoinSplitStep(x: string, t: string, sep: char)
    requires Piece(x, sep) && t != [] && t[0] != sep
    requires Join(Split(t, sep, []), sep) == t
    ensures Join(Split(x + ([sep] + t), sep, []), sep) == x + ([sep] + t)
  {
    SplitAtSep(x, t, sep);
    SplitEmptyIff(t, sep, []);
    JoinCons(x, Split(t, sep, []), sep);
    assert x + [sep] + t == x + ([sep] + t);
  }

  /** Joining the pieces of a clean string gives the string back. */
  lemma {:induction false} JoinSplitClean(s: string, sep: char)
    requires Clean(s, sep)
    ensures Join(Split(s, sep, []), sep) == s
    decreases |s|
  {
    var i := SepIndex(s, sep);
    if i == |s| {
      assert s[..i] == s;
      JoinSplitNoSep(s, sep);
    } else {
      var x, t := s[..i], s[i + 1..];
      assert s == x + ([sep] + t);
      assert 0 < i < |s| - 1 && s[i + 1] != sep by {
        assert !(s[i] == sep && s[i + 1] == sep);
      }
      CleanSuffix(s, sep, i + 1);
      JoinSplitClean(t, sep);
      JoinSplitStep(x, t, sep);
    }
  }

  // ---------------------------------------------------------------------
  // The text after the last separator (`lastIndex(of:)` and a slice)
  // ---------------------------------------------------------------------

  /** What follows the last `sep` in `s`, or all of `s` when it has none. */
  function AfterLast(s: string, sep: char): string
    decreases |s|
  {
    if s == [] then []
    else if s[|s| - 1] == sep then []
    else AfterLast(s[..|s| - 1], sep) + [s[|s| - 1]]
  }

  /** The text after the last separator is a suffix of `s` free of `sep`,
      preceded by `sep` unless it is all of `s`. */
  lemma {:induction false} AfterLastShape(s: string, sep: char)
    ensures var r := AfterLast(s, sep);
      |r| <= |s| && r == s[|s| - |r|..] && NoChar(r, sep)
      && (|r| < |s| ==> s[|s| - |r| - 1] == sep)
    decreases |s|
  {
    if s != [] && s[|s| - 1] != sep {
      var init, c := s[..|s| - 1], s[|s| - 1];
      AfterLastShape(init, sep);
      var q := AfterLast(init, sep);
      var r := AfterLast(s, sep);
      assert r == q + [c];
      assert init[|init| - |q|..] + [c] == s[|s| - |r|..];
      assert |r| < |s| ==> s[|s| - |r| - 1] == init[|init| - |q| - 1];
    }
  }

  /** A separator-free tail after a separator (or by itself) is what follows
      the last separator. */
  lemma {:induction false} AfterLastAppend(p: string, x: string, sep: char)
    requires NoChar(x, sep) && (p == [] || p[|p| - 1] == sep)
    ensures AfterLast(p + x, sep) == x
    decreases |x|
  {
    if x == [] {
      assert p + x == p;
    } else {
      var s := p + x;
      var init, c := x[..|x| - 1], x[|x| - 1];
      assert c != sep;
      assert s[|s| - 1] == c;
      assert s[..|s| - 1] == p + init;
      assert NoChar(init, sep);
      AfterLastAppend(p, init, sep);
      assert AfterLast(s, sep) == AfterLast(p + init, sep) + [c];
      assert x == init + [c];
    }
  }

  /** A piece after a separator (or at the very start) becomes the last piece
      of the split. */
  lemma {:induction false} SplitAppendPiece(p: string, x: string, sep: char, cur: string)
    requires Piece(x, sep)
    requires p != [] && p[|p| - 1] == sep
    ensures Split(p + x, sep, cur) == Split(p, sep, cur) + [x]
    decreases |p|
  {
    if |p| == 1 {
      assert p == [sep];
      assert (p + x)[1..] == x;
      SplitAbsorb(x, [], sep, []);
      assert x + [] == x;
      assert [] + x == x;
    } else {
      assert (p + x)[0] == p[0];
      assert (p + x)[1..] == p[1..] + x;
      if p[0] == sep {
        SplitAppendPiece(p[1..], x, sep, []);
      } else {
        SplitAppendPiece(p[1..], x, sep, cur + [p[0]]);
      }
    }
  }

  /** The last piece of a split is the text after the last separator, when
      that text is not empty. */
  lemma SplitLastIsAfterLast(s: string, sep: char)
    requires AfterLast(s, sep) != []
    ensures Split(s, sep, []) != []
    ensures Split(s, sep, [])[|Split(s, sep, [])| - 1] == AfterLast(s, sep)
  {
    var x := AfterLast(s, sep);
    AfterLastShape(s, sep);
    var p := s[..|s| - |x|];
    assert s == p + x;
    assert Piece(x, sep);
    if p == [] {
      assert s == x + [];
      SplitAbsorb(x, [], sep, []);
      assert [] + x == x;
      assert Split([], sep, x) == [x];
    } else {
      assert p[|p| - 1] == s[|s| - |x| - 1];
      SplitAppendPiece(p, x, sep, []);
      var q := Split(p, sep, []);
      assert Split(s, sep, []) == q + [x];
    }
  }

  // ---------------------------------------------------------------------
  // Upper-casing and integer interpolation
  // ---------------------------------------------------------------------

  function UpperChar(c: char): char {
    if 'a' <= c <= 'z' then (c as int - 'a' as int + 'A' as int) as char else c
  }

  /** `uppercased()`, restricted to the ASCII letters. */
  function Upper(s: string): (r: string)
    ensures |r| == |s| && forall i :: 0 <= i < |s| ==> r[i] == UpperChar(s[i])
  {
    seq(|s|, i requires 0 <= i < |s| => UpperChar(s[i]))
  }

  predicate IsDigit(c: char) {
    '0' <= c <= '9'
  }

  predicate AllDigits(s: string) {
    forall i :: 0 <= i < |s| ==> IsDigit(s[i])
  }

  /** Decimal text of a count, as Swift's string interpolation writes it. */
  function NatToString(n: nat): string
    decreases n
  {
    var d := ((n % 10) + '0' as int) as char;
    if n < 10 then [d] else NatToString(n / 10) + [d]
  }

  /** The decimal reading of a digit string. */
  function DecimalValue(s: string): nat
    requires AllDigits(s)
    decreases |s|
  {
    if s == [] then 0
    else
      var last := s[|s| - 1];
      assert IsDigit(last);
      DecimalValue(s[..|s| - 1]) * 10 + (last as int - '0' as int)
  }

  /** The interpolated count is a non-empty run of digits that reads back as
      the same number. */
  lemma {:induction false} NatToStringRoundTrip(n: nat)
    ensures NatToString(n) != [] && AllDigits(NatToString(n)) && DecimalValue(NatToString(n)) == n
    decreases n
  {
    var r := NatToString(n);
    if n >= 10 {
      NatToStringRoundTrip(n / 10);
      var q := NatToString(n / 10);
      assert r == q + [r[|r| - 1]];
      assert r[..|r| - 1] == q;
    }
  }
}
