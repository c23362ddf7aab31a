/**
 * The PHP string functions the router calls: `str_starts_with`,
 * `str_replace` with one search string, `explode`, `implode` and `rtrim`
 * with one character.
 */
module Strings {
  import opened Seqs

  predicate StartsWith(s: string, prefix: string) {
    |prefix| <= |s| && s[..|prefix|] == prefix
  }

  /**
   * `str_replace($from, $to, $s)`: scans left to right and replaces every
   * non-overlapping occurrence of `from`.
   */
  function StrReplace(s: string, from: string, to: string): string
    requires |from| > 0
    decreases |s|
  {
    if |s| == 0 then ""
    else if StartsWith(s, from) then to + StrReplace(s[|from|..], from, to)
    else [s[0]] + StrReplace(s[1..], from, to)
  }

  /** `str_replace` replaces nothing in a string where `from` never starts. */
  lemma {:induction false} StrReplaceNone(s: string, from: string, to: string)
    requires |from| > 0 && from[0] !in s
    ensures StrReplace(s, from, to) == s
  {
    if |s| > 0 {
      StrReplaceNone(s[1..], from, to);
    }
  }

  /**
   * `explode($sep, $s)`: the pieces between the leftmost non-overlapping
   * occurrences of `sep`; there is always at least one piece.
   */
  function Explode(s: string, sep: string): (parts: seq<string>)
    requires |sep| > 0
    ensures |parts| >= 1
    decreases |s|
  {
    if |s| == 0 then [""]
    else if StartsWith(s, sep) then [""] + Explode(s[|sep|..], sep)
    else
      var rest := Explode(s[1..], sep);
      [[s[0]] + rest[0]] + rest[1..]
  }

  /** `implode($sep, $parts)`. */
  function Implode(parts: seq<string>, sep: string): string {
    if parts == [] then ""
    else if |parts| == 1 then parts[0]
    else parts[0] + sep + Implode(parts[1..], sep)
  }

  /** `implode` undoes `explode`. */
  lemma {:induction false} ImplodeExplode(s: string, sep: string)
    requires |sep| > 0
    ensures Implode(Explode(s, sep), sep) == s
    decreases |s|
  {
    if |s| == 0 {
    } else if StartsWith(s, sep) {
      var r := s[|sep|..];
      ImplodeExplode(r, sep);
      ImplodeCons("", Explode(r, sep), sep);
      assert s == "" + sep + r;
    } else {
      var rest := Explode(s[1..], sep);
      ImplodeExplode(s[1..], sep);
      ImplodeConsHead(s[0], rest, sep);
      assert s == [s[0]] + s[1..];
    }
  }

  lemma ImplodeCons(x: string, parts: seq<string>, sep: string)
    requires |parts| >= 1
    ensures Implode([x] + parts, sep) == x + sep + Implode(parts, sep)
  {
    ConsParts(x, parts);
  }

  lemma ImplodeConsHead(c: char, parts: seq<string>, sep: string)
    requires |parts| >= 1
    ensures Implode([[c] + parts[0]] + parts[1..], sep) == [c] + Implode(parts, sep)
  {
    var p := [[c] + parts[0]] + parts[1..];
    if |parts| > 1 {
      assert p[1..] == parts[1..];
    }
  }

  /**
   * A prefix in which `sep` cannot start is glued to the first piece:
   * `explode(sep, a . t)` is `explode(sep, t)` with `a` prepended to its
   * first piece.
   */
  lemma {:induction false} ExplodePrefix(a: string, t: string, sep: string)
    requires |sep| > 0 && sep[0] !in a
    ensures var e := Explode(t, sep); Explode(a + t, sep) == [a + e[0]] + e[1..]
  {
    if |a| > 0 {
      ExplodePrefix(a[1..], t, sep);
      assert (a + t)[1..] == a[1..] + t;
      assert sep[0] != (a + t)[0];
      assert !StartsWith(a + t, sep);
      var e := Explode(t, sep);
      var rest := Explode((a + t)[1..], sep);
      assert rest == [a[1..] + e[0]] + e[1..];
      assert [(a + t)[0]] + rest[0] == a + e[0];
    } else {
      assert a + t == t;
      var e := Explode(t, sep);
      assert a + e[0] == e[0];
      assert e == [e[0]] + e[1..];
    }
  }

  /** A string in which `sep` cannot start is one piece. */
  lemma ExplodeWhole(a: string, sep: string)
    requires |sep| > 0 && sep[0] !in a
    ensures Explode(a, sep) == [a]
  {
    ExplodePrefix(a, "", sep);
    assert a + "" == a;
  }

  /** `explode(sep, a . sep . b)` where `sep` cannot start inside `a`. */
  lemma ExplodeAt(a: string, b: string, sep: string)
    requires |sep| > 0 && sep[0] !in a
    ensures Explode(a + sep + b, sep) == [a] + Explode(b, sep)
  {
    ExplodePrefix(a, sep + b, sep);
    assert a + sep + b == a + (sep + b);
    assert (sep + b)[|sep|..] == b;
    assert StartsWith(sep + b, sep);
    assert Explode(sep + b, sep) == [""] + Explode(b, sep);
    assert a + "" == a;
  }

  /** One step of `explode` with a one-character separator. */
  lemma ExplodeCons(c: char, t: string, sep: string)
    requires |sep| == 1
    ensures c == sep[0] ==> Explode([c] + t, sep) == [""] + Explode(t, sep)
    ensures c != sep[0] ==> Explode([c] + t, sep) == [[c] + Explode(t, sep)[0]] + Explode(t, sep)[1..]
  {
    var s := [c] + t;
    assert s[1..] == t;
    assert s[..1] == [c];
  }

  /** With a one-character separator, `explode` splits a join at the joining separator. */
  lemma {:induction false} ExplodeJoin(a: string, b: string, sep: string)
    requires |sep| == 1
    ensures Explode(a + sep + b, sep) == Explode(a, sep) + Explode(b, sep)
    decreases |a|
  {
    if |a| == 0 {
      assert a + sep + b == [sep[0]] + b;
      ExplodeCons(sep[0], b, sep);
    } else {
      var c, t := a[0], a[1..];
      assert a == [c] + t;
      assert a + sep + b == [c] + (t + sep + b);
      ExplodeJoin(t, b, sep);
      ExplodeJoinStep(c, t, t + sep + b, Explode(b, sep), sep);
    }
  }

  lemma ExplodeJoinStep(c: char, t: string, u: string, f: seq<string>, sep: string)
    requires |sep| == 1 && Explode(u, sep) == Explode(t, sep) + f
    ensures Explode([c] + u, sep) == Explode([c] + t, sep) + f
  {
    ExplodeCons(c, u, sep);
    ExplodeCons(c, t, sep);
    var e := Explode(t, sep);
    if c == sep[0] {
      ConsAssoc("", e, f);
    } else {
      HeadTailAppend(e, f);
      ConsAssoc([c] + e[0], e[1..], f);
    }
  }

  /** `str_replace` changes nothing in a string that lacks the last character of `from`. */
  lemma {:induction false} StrReplaceAbsent(s: string, from: string, to: string)
    requires |from| > 0 && from[|from| - 1] !in s
    ensures StrReplace(s, from, to) == s
    decreases |s|
  {
    if |s| > 0 {
      assert !StartsWith(s, from) by {
        if |from| <= |s| {
          assert s[..|from|][|from| - 1] == s[|from| - 1];
        }
      }
      StrReplaceAbsent(s[1..], from, to);
      assert s == [s[0]] + s[1..];
    }
  }

  /** `rtrim($s, $c)`: the trailing run of `c` removed. */
  function RTrim(s: string, c: char): (r: string)
    ensures |r| <= |s| && s[..|r|] == r
    ensures r == [] || r[|r| - 1] != c
    ensures forall i :: |r| <= i < |s| ==> s[i] == c
  {
    if |s| > 0 && s[|s| - 1] == c then RTrim(s[..|s| - 1], c) else s
  }
}
