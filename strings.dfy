/**
 * String operations the worksheet code takes from its string class:
 * replace-all, right trim, left/right slices and decimal formatting,
 * together with the facts about them that the cell formatters rely on.
 * Strings are sequences of Unicode scalar values.
 */
module Strings {

  /** `pat` occurs somewhere in `s` (the empty pattern occurs everywhere). */
  predicate HasSub(s: string, pat: string)
    decreases |s|
  {
    |pat| <= |s| && (s[..|pat|] == pat || (|s| > 0 && HasSub(s[1..], pat)))
  }

  /**
   * Replace every occurrence of `pat` by `rep`, scanning left to right and
   * resuming after each replacement, as the string class's Replace does with
   * replace-all set. An empty pattern replaces nothing.
   */
  function ReplaceAll(s: string, pat: string, rep: string): string
    decreases |s|
  {
    if |pat| == 0 || |s| < |pat| then s
    else if s[..|pat|] == pat then rep + ReplaceAll(s[|pat|..], pat, rep)
    else [s[0]] + ReplaceAll(s[1..], pat, rep)
  }

  /** Every `c` of `s` becomes `rep`; every other character stays. */
  function MapChar(s: string, c: char, rep: string): string
    decreases |s|
  {
    if |s| == 0 then []
    else (if s[0] == c then rep else [s[0]]) + MapChar(s[1..], c, rep)
  }

  lemma {:induction false} ReplaceAllMissing(s: string, pat: string, rep: string)
    requires !HasSub(s, pat)
    ensures ReplaceAll(s, pat, rep) == s
    decreases |s|
  {
    if |pat| == 0 || |s| < |pat| {
    } else {
      assert s[..|pat|] != pat;
      ReplaceAllMissing(s[1..], pat, rep);
      assert [s[0]] + s[1..] == s;
    }
  }

  /** A one-character pattern occurs exactly when the character does. */
  lemma {:induction false} CharHasSub(s: string, c: char)
    ensures HasSub(s, [c]) <==> c in s
    decreases |s|
  {
    if |s| > 0 {
      CharHasSub(s[1..], c);
      assert s == [s[0]] + s[1..];
    }
  }

  /** The first character of an occurring pattern occurs. */
  lemma {:induction false} HasSubHead(s: string, x: char, p: string)
    requires HasSub(s, [x] + p)
    ensures x in s
    decreases |s|
  {
    var q := [x] + p;
    if s[..|q|] == q {
      assert s[0] == q[0];
    } else {
      HasSubHead(s[1..], x, p);
      assert s == [s[0]] + s[1..];
    }
  }

  /** Replacing a character that does not occur changes nothing. */
  lemma MissingCharUnchanged(s: string, c: char, rep: string)
    requires c !in s
    ensures ReplaceAll(s, [c], rep) == s
  {
    CharHasSub(s, c);
    ReplaceAllMissing(s, [c], rep);
  }

  /** Replacing a one-character pattern is the same as mapping that character. */
  lemma {:induction false} ReplaceCharIsMap(s: string, c: char, rep: string)
    ensures ReplaceAll(s, [c], rep) == MapChar(s, c, rep)
    decreases |s|
  {
    if |s| > 0 {
      ReplaceCharIsMap(s[1..], c, rep);
      assert s[..1] == [c] <==> s[0] == c;
    }
  }

  lemma {:induction false} MapCharConcat(a: string, b: string, c: char, rep: string)
    ensures MapChar(a + b, c, rep) == MapChar(a, c, rep) + MapChar(b, c, rep)
    decreases |a|
  {
    if |a| == 0 {
      assert a + b == b;
    } else {
      assert (a + b)[0] == a[0];
      assert (a + b)[1..] == a[1..] + b;
      MapCharConcat(a[1..], b, c, rep);
    }
  }

  lemma {:induction false} MapCharAbsent(s: string, c: char, rep: string)
    requires c !in s
    ensures MapChar(s, c, rep) == s
    decreases |s|
  {
    if |s| > 0 {
      assert s[0] != c;
      assert c !in s[1..] by { forall k | 0 <= k < |s| - 1 ensures s[1..][k] != c { assert s[1..][k] == s[k + 1]; } }
      MapCharAbsent(s[1..], c, rep);
      assert [s[0]] + s[1..] == s;
    }
  }

  /** A character that neither the text nor the replacement holds is not introduced. */
  lemma {:induction false} ReplaceAllKeepsAbsent(s: string, pat: string, rep: string, x: char)
    requires x !in s && x !in rep
    ensures x !in ReplaceAll(s, pat, rep)
    decreases |s|
  {
    if |pat| == 0 || |s| < |pat| {
    } else {
      assert x !in s[|pat|..] by { forall k | 0 <= k < |s| - |pat| ensures s[|pat|..][k] != x { assert s[|pat|..][k] == s[k + |pat|]; } }
      assert x !in s[1..] by { forall k | 0 <= k < |s| - 1 ensures s[1..][k] != x { assert s[1..][k] == s[k + 1]; } }
      ReplaceAllKeepsAbsent(s[|pat|..], pat, rep, x);
      ReplaceAllKeepsAbsent(s[1..], pat, rep, x);
    }
  }

  /**
   * The first `n` characters of a replace-all are either the original first
   * `n` characters or already contain the replacement's first character.
   */
  lemma {:induction false} PrefixOrMarker(x: string, pat: string, rep: string, n: nat)
    requires |pat| > 0 && |rep| > 0
    requires n <= |ReplaceAll(x, pat, rep)|
    ensures rep[0] in ReplaceAll(x, pat, rep)[..n] || (n <= |x| && ReplaceAll(x, pat, rep)[..n] == x[..n])
    decreases |x|
  {
    var r := ReplaceAll(x, pat, rep);
    if n == 0 || |x| < |pat| {
    } else if x[..|pat|] == pat {
      assert r[0] == rep[0];
      assert r[..n][0] == rep[0];
    } else {
      var y := ReplaceAll(x[1..], pat, rep);
      assert r == [x[0]] + y;
      PrefixOrMarker(x[1..], pat, rep, n - 1);
      if rep[0] in y[..n - 1] {
        assert r[..n] == [x[0]] + y[..n - 1];
      } else {
        assert r[..n] == [x[0]] + y[..n - 1] == [x[0]] + x[1..][..n - 1] == x[..n];
      }
    }
  }

  /**
   * After replacing every `pat` by a single character that `pat` does not
   * contain, the result holds no occurrence of `pat`.
   */
  lemma {:induction false} ReplaceAllLeavesNoMatch(s: string, pat: string, c: char)
    requires |pat| > 0 && c !in pat
    ensures !HasSub(ReplaceAll(s, pat, [c]), pat)
    decreases |s|
  {
    var r := ReplaceAll(s, pat, [c]);
    if |s| < |pat| {
    } else if s[..|pat|] == pat {
      var x := ReplaceAll(s[|pat|..], pat, [c]);
      ReplaceAllLeavesNoMatch(s[|pat|..], pat, c);
      assert r == [c] + x;
      assert r[1..] == x;
      if |pat| <= |r| {
        assert r[..|pat|][0] == c;
        assert pat[0] != c;
      }
    } else {
      var x := ReplaceAll(s[1..], pat, [c]);
      ReplaceAllLeavesNoMatch(s[1..], pat, c);
      assert r == [s[0]] + x;
      assert r[1..] == x;
      if |pat| <= |r| {
        PrefixOrMarker(s[1..], pat, [c], |pat| - 1);
        assert r[..|pat|] == [s[0]] + x[..|pat| - 1];
        if c in x[..|pat| - 1] {
          var k :| 0 <= k < |pat| - 1 && x[..|pat| - 1][k] == c;
          assert r[..|pat|][k + 1] == c;
        } else {
          assert r[..|pat|] == [s[0]] + s[1..][..|pat| - 1] == s[..|pat|];
        }
      }
    }
  }

  /** Characters that cannot start `p` add no occurrence of it in front of a string. */
  lemma {:induction false} HasSubAfterOthers(a: string, b: string, p: string)
    requires |p| > 0 && p[0] !in a && HasSub(a + b, p)
    ensures HasSub(b, p)
    decreases |a|
  {
    if |a| > 0 {
      assert (a + b)[..|p|][0] == a[0];
      assert (a + b)[1..] == a[1..] + b;
      HasSubAfterOthers(a[1..], b, p);
    } else {
      assert a + b == b;
    }
  }

  /** The fields of `s` between the occurrences of `sep`, in order; a string without `sep` is one field. */
  function Split(s: string, sep: char): (r: seq<string>)
    ensures |r| >= 1
    decreases |s|
  {
    if |s| == 0 then [""]
    else
      var rest := Split(s[1..], sep);
      if s[0] == sep then [""] + rest else [[s[0]] + rest[0]] + rest[1..]
  }

  /** A field free of the separator, then the separator, splits off as the first field. */
  lemma {:induction false} SplitField(a: string, sep: char, b: string)
    requires sep !in a
    ensures Split(a + [sep] + b, sep) == [a] + Split(b, sep)
    decreases |a|
  {
    var s := a + [sep] + b;
    if |a| == 0 {
      assert s[1..] == b;
    } else {
      assert s[1..] == a[1..] + [sep] + b;
      SplitField(a[1..], sep, b);
      assert [a[0]] + a[1..] == a;
    }
  }

  /** A string without the separator is a single field. */
  lemma {:induction false} SplitWhole(a: string, sep: char)
    requires sep !in a
    ensures Split(a, sep) == [a]
    decreases |a|
  {
    if |a| > 0 {
      SplitWhole(a[1..], sep);
      assert [a[0]] + a[1..] == a;
    }
  }

  /** An occurrence of `p + q` is also an occurrence of `p`. */
  lemma {:induction false} HasSubPrefix(s: string, p: string, q: string)
    requires HasSub(s, p + q)
    ensures HasSub(s, p)
    decreases |s|
  {
    if s[..|p + q|] == p + q {
      assert s[..|p|] == (p + q)[..|p|] == p;
    } else {
      HasSubPrefix(s[1..], p, q);
    }
  }

  /** An occurrence of `[x] + p` is also an occurrence of `p`. */
  lemma {:induction false} HasSubDropFirst(s: string, x: char, p: string)
    requires HasSub(s, [x] + p)
    ensures HasSub(s, p)
    decreases |s|
  {
    var q := [x] + p;
    if s[..|q|] == q {
      assert s[1..][..|p|] == q[1..] == p;
    } else {
      HasSubDropFirst(s[1..], x, p);
    }
  }

  /** Mapping the marker back to the pattern undoes a replace-all by a fresh marker. */
  lemma {:induction false} UndoReplace(s: string, pat: string, c: char)
    requires |pat| > 0 && c !in s
    ensures MapChar(ReplaceAll(s, pat, [c]), c, pat) == s
    decreases |s|
  {
    if |s| < |pat| {
      MapCharAbsent(s, c, pat);
    } else if s[..|pat|] == pat {
      var x := ReplaceAll(s[|pat|..], pat, [c]);
      assert c !in s[|pat|..] by { forall k | 0 <= k < |s| - |pat| ensures s[|pat|..][k] != c { assert s[|pat|..][k] == s[k + |pat|]; } }
      UndoReplace(s[|pat|..], pat, c);
      MapCharConcat([c], x, c, pat);
      assert MapChar([c], c, pat) == pat + MapChar([], c, pat);
      assert pat + s[|pat|..] == s;
    } else {
      var x := ReplaceAll(s[1..], pat, [c]);
      assert c !in s[1..] by { forall k | 0 <= k < |s| - 1 ensures s[1..][k] != c { assert s[1..][k] == s[k + 1]; } }
      UndoReplace(s[1..], pat, c);
      MapCharConcat([s[0]], x, c, pat);
      assert MapChar([s[0]], c, pat) == [s[0]] + MapChar([], c, pat);
      assert [s[0]] + s[1..] == s;
    }
  }

  /** Two single-character maps commute when neither introduces the other's character. */
  lemma {:induction false} MapCharCommute(s: string, c1: char, r1: string, c2: char, r2: string)
    requires c1 != c2 && c2 !in r1 && c1 !in r2
    ensures MapChar(MapChar(s, c1, r1), c2, r2) == MapChar(MapChar(s, c2, r2), c1, r1)
    decreases |s|
  {
    if |s| > 0 {
      var h1 := if s[0] == c1 then r1 else [s[0]];
      var h2 := if s[0] == c2 then r2 else [s[0]];
      MapCharConcat(h1, MapChar(s[1..], c1, r1), c2, r2);
      MapCharConcat(h2, MapChar(s[1..], c2, r2), c1, r1);
      MapCharCommute(s[1..], c1, r1, c2, r2);
      if s[0] == c1 {
        MapCharAbsent(r1, c2, r2);
        assert MapChar([s[0]], c1, r1) == r1 + MapChar([], c1, r1);
      } else if s[0] == c2 {
        MapCharAbsent(r2, c1, r1);
        assert MapChar([s[0]], c2, r2) == r2 + MapChar([], c2, r2);
      } else {
        assert MapChar([s[0]], c1, r1) == [s[0]] + MapChar([], c1, r1);
        assert MapChar([s[0]], c2, r2) == [s[0]] + MapChar([], c2, r2);
      }
    }
  }

  // ---------------------------------------------------------------------
  // Backslash escaping

  /** No character occurs twice in `cs`. */
  ghost predicate Distinct(cs: string)
  {
    forall i, j :: 0 <= i < j < |cs| ==> cs[i] != cs[j]
  }

  /** Two texts without repeats and without a common character join into one without repeats. */
  lemma DistinctConcat(a: string, b: string)
    requires Distinct(a) && Distinct(b)
    requires forall i, j :: 0 <= i < |a| && 0 <= j < |b| ==> a[i] != b[j]
    ensures Distinct(a + b)
  {
    forall i, j | 0 <= i < j < |a + b|
      ensures (a + b)[i] != (a + b)[j]
    {
      if j < |a| {
        assert (a + b)[i] == a[i] && (a + b)[j] == a[j];
      } else if i < |a| {
        assert (a + b)[i] == a[i] && (a + b)[j] == b[j - |a|];
      } else {
        assert (a + b)[i] == b[i - |a|] && (a + b)[j] == b[j - |a|];
      }
    }
  }

  /** Put one backslash before every character of `s` that is in `reserved`. */
  function Escape(s: string, reserved: string): string
    decreases |s|
  {
    if |s| == 0 then []
    else EscapeChar(s[0], reserved) + Escape(s[1..], reserved)
  }

  /** One character, behind a backslash when it is reserved. */
  function EscapeChar(c: char, reserved: string): string
  {
    if c in reserved then ['\\', c] else [c]
  }

  /** Replace each character of `cs`, in order, by itself preceded by a backslash. */
  function EscapeEach(s: string, cs: string): string
    decreases |cs|
  {
    if |cs| == 0 then s
    else EscapeEach(ReplaceAll(s, [cs[0]], ['\\', cs[0]]), cs[1..])
  }

  /** Drop the backslash in front of every reserved character. */
  function Unescape(s: string, reserved: string): string
    decreases |s|
  {
    if |s| == 0 then []
    else if |s| >= 2 && s[0] == '\\' && s[1] in reserved then [s[1]] + Unescape(s[2..], reserved)
    else [s[0]] + Unescape(s[1..], reserved)
  }

  lemma {:induction false} EscapeConcat(a: string, b: string, reserved: string)
    ensures Escape(a + b, reserved) == Escape(a, reserved) + Escape(b, reserved)
    decreases |a|
  {
    if |a| == 0 {
      assert a + b == b;
    } else {
      assert (a + b)[0] == a[0];
      assert (a + b)[1..] == a[1..] + b;
      EscapeConcat(a[1..], b, reserved);
    }
  }

  lemma {:induction false} EscapeOne(s: string, c: char)
    ensures MapChar(s, c, ['\\', c]) == Escape(s, [c])
    decreases |s|
  {
    if |s| > 0 {
      EscapeOne(s[1..], c);
    }
  }

  lemma {:induction false} EscapeMore(s: string, done: string, c: char)
    requires '\\' in done && c !in done
    ensures MapChar(Escape(s, done), c, ['\\', c]) == Escape(s, done + [c])
    decreases |s|
  {
    if |s| > 0 {
      var h := if s[0] in done then ['\\', s[0]] else [s[0]];
      MapCharConcat(h, Escape(s[1..], done), c, ['\\', c]);
      EscapeMore(s[1..], done, c);
      if s[0] in done {
        assert MapChar(h, c, ['\\', c]) == h by {
          MapCharAbsent(h, c, ['\\', c]);
        }
      } else {
        assert MapChar(h, c, ['\\', c]) == (if s[0] == c then ['\\', c] else [s[0]]) + MapChar([], c, ['\\', c]);
      }
    }
  }

  lemma {:induction false} EscapeRest(s: string, done: string, cs: string)
    requires '\\' in done && Distinct(done + cs)
    ensures EscapeEach(Escape(s, done), cs) == Escape(s, done + cs)
    decreases |cs|
  {
    if |cs| == 0 {
      assert done + cs == done;
    } else {
      var c := cs[0];
      assert c !in done by {
        forall k | 0 <= k < |done| ensures done[k] != c {
          assert (done + cs)[k] == done[k] && (done + cs)[|done|] == c;
        }
      }
      ReplaceCharIsMap(Escape(s, done), c, ['\\', c]);
      EscapeMore(s, done, c);
      assert done + [c] + cs[1..] == done + cs;
      EscapeRest(s, done + [c], cs[1..]);
    }
  }

  /**
   * Escaping character by character, backslash first, puts exactly one
   * backslash before each reserved character: the sequential replacements
   * agree with the one-pass escape.
   */
  lemma EscapeEachIsEscape(s: string, cs: string)
    requires |cs| > 0 && cs[0] == '\\' && Distinct(cs)
    ensures EscapeEach(s, cs) == Escape(s, cs)
  {
    ReplaceCharIsMap(s, '\\', ['\\', '\\']);
    EscapeOne(s, '\\');
    assert [cs[0]] + cs[1..] == cs;
    EscapeRest(s, [cs[0]], cs[1..]);
  }

  /** Unescaping undoes the escape of a single character at the front. */
  lemma UnescapeHead(c: char, t: string, reserved: string)
    requires '\\' in reserved
    ensures Unescape(EscapeChar(c, reserved) + t, reserved) == [c] + Unescape(t, reserved)
  {
    var s := EscapeChar(c, reserved) + t;
    if c in reserved {
      assert s[0] == '\\' && s[1] == c && s[2..] == t;
    } else {
      assert s[0] == c && s[1..] == t;
    }
  }

  /** Unescaping an escaped text undoes the escape of its first character. */
  lemma UnescapeEscapeStep(x: string, y: string, reserved: string)
    requires '\\' in reserved && |x| > 0
    ensures Unescape(Escape(x, reserved) + y, reserved) == [x[0]] + Unescape(Escape(x[1..], reserved) + y, reserved)
  {
    var h, e := EscapeChar(x[0], reserved), Escape(x[1..], reserved);
    assert Escape(x, reserved) + y == h + (e + y);
    UnescapeHead(x[0], e + y, reserved);
  }

  /** Unescaping an escaped text, followed by anything, gives the text back. */
  lemma {:induction false} UnescapeEscape(x: string, y: string, reserved: string)
    requires '\\' in reserved
    ensures Unescape(Escape(x, reserved) + y, reserved) == x + Unescape(y, reserved)
    decreases |x|
  {
    if |x| == 0 {
      assert Escape(x, reserved) + y == y;
    } else {
      UnescapeEscape(x[1..], y, reserved);
      UnescapeEscapeStep(x, y, reserved);
      assert [x[0]] + (x[1..] + Unescape(y, reserved)) == x + Unescape(y, reserved) by {
        assert [x[0]] + x[1..] == x;
      }
    }
  }

  // ---------------------------------------------------------------------
  // Trimming, slices, numbers

  /** The characters the string class's right trim removes. */
  predicate IsSpace(c: char)
  {
    c == ' ' || c == '\t' || c == '\n' || c == '\r' || c == '\U{B}' || c == '\U{C}'
  }

  /** Remove trailing white space. */
  function TrimRight(s: string): (r: string)
    ensures r <= s
    ensures |r| == 0 || !IsSpace(r[|r| - 1])
    ensures forall k :: |r| <= k < |s| ==> IsSpace(s[k])
    decreases |s|
  {
    if |s| > 0 && IsSpace(s[|s| - 1]) then TrimRight(s[..|s| - 1]) else s
  }

  /** The first `n` characters, or all of them when there are fewer. */
  function Left(s: string, n: nat): (r: string)
    ensures r <= s && |r| == if n < |s| then n else |s|
  {
    if n < |s| then s[..n] else s
  }

  /** The last `n` characters, or all of them when there are fewer. */
  function Right(s: string, n: nat): (r: string)
    ensures |r| == (if n < |s| then n else |s|) && s == s[..|s| - |r|] + r
  {
    if n < |s| then s[|s| - n..] else s
  }

  function Digit(d: nat): (c: char)
    requires d < 10
  {
    ('0' as int + d) as char
  }

  /** Decimal digits of `n` without leading zeros, as a `%i` format prints them. */
  function NatToString(n: nat): (r: string)
    ensures |r| > 0
    ensures forall k :: 0 <= k < |r| ==> '0' <= r[k] <= '9'
    decreases n
  {
    if n < 10 then [Digit(n)] else NatToString(n / 10) + [Digit(n % 10)]
  }

  /** Value of a string of decimal digits. */
  function ParseNat(s: string): nat
    decreases |s|
  {
    if |s| == 0 then 0
    else
      var d := s[|s| - 1] as int - '0' as int;
      ParseNat(s[..|s| - 1]) * 10 + (if 0 <= d then d else 0)
  }

  /** Formatting a number and reading it back gives the number. */
  lemma {:induction false} ParseNatToString(n: nat)
    ensures ParseNat(NatToString(n)) == n
    decreases n
  {
    if n >= 10 {
      var s := NatToString(n / 10) + [Digit(n % 10)];
      assert s[..|s| - 1] == NatToString(n / 10);
      ParseNatToString(n / 10);
    }
  }

  /** A signed decimal, as `%i` prints it. */
  function IntToString(i: int): (r: string)
    ensures |r| > 0 && (i < 0 <==> r[0] == '-')
  {
    if i < 0 then "-" + NatToString(-i) else NatToString(i)
  }
}
