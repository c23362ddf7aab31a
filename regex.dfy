/**
 * The family of regular expressions a route compiles to: literal text in
 * which only '/' is escaped, named groups `(?<name>.*)`, anchored at the end
 * by `$` and not at the start, between '/' delimiters. It gives the token
 * form, the rendering to the regex string and back, and the meaning
 * `preg_match` gives such a regex on a subject without newlines: the
 * leftmost start, then each `.*` as long as the rest still matches.
 */
module Regex {
  import opened Values
  import opened Strings

  datatype Token = Lit(text: string) | Cap(name: string)

  predicate IsNameChar(c: char) {
    ('a' <= c <= 'z') || ('A' <= c <= 'Z') || c == '_'
  }

  predicate IsName(n: string) {
    forall i :: 0 <= i < |n| ==> IsNameChar(n[i])
  }

  /** Characters that stand for themselves in a PCRE pattern; '/' is allowed because it is escaped. */
  predicate LiteralChar(c: char) {
    && c != '\\' && c != '^' && c != '$' && c != '.' && c != '|' && c != '?' && c != '*' && c != '+'
    && c != '(' && c != ')' && c != '[' && c != ']' && c != '{' && c != '}' && c != '\n'
  }

  predicate AllLiteral(t: string) {
    forall i :: 0 <= i < |t| ==> LiteralChar(t[i])
  }

  /**
   * A conservative bound on group names: PCRE2 releases before 10.44 refuse
   * names longer than 32 characters (later releases allow longer ones).
   */
  const MaxNameLength: nat := 32

  predicate TokenOk(t: Token) {
    match t
    case Lit(text) => |text| > 0 && AllLiteral(text)
    case Cap(name) => 0 < |name| <= MaxNameLength && IsName(name)
  }

  function CapNames(ts: seq<Token>): (ns: seq<string>)
    ensures |ns| == CapCount(ts)
  {
    if ts == [] then []
    else if ts[0].Cap? then [ts[0].name] + CapNames(ts[1..])
    else CapNames(ts[1..])
  }

  function CapCount(ts: seq<Token>): nat {
    if ts == [] then 0 else (if ts[0].Cap? then 1 else 0) + CapCount(ts[1..])
  }

  predicate Distinct(ns: seq<string>) {
    forall i, j :: 0 <= i < j < |ns| ==> ns[i] != ns[j]
  }

  /**
   * The token lists a route can compile to and PCRE accepts: adjacent
   * literals merged, group names valid and pairwise distinct.
   */
  predicate WellFormed(ts: seq<Token>) {
    && (forall i :: 0 <= i < |ts| ==> TokenOk(ts[i]))
    && (forall i :: 0 < i < |ts| ==> !(ts[i - 1].Lit? && ts[i].Lit?))
    && Distinct(CapNames(ts))
  }

  /** `str_replace('/', '\/', $t)`. */
  function Escape(t: string): string {
    StrReplace(t, "/", "\\/")
  }

  function CapGroup(name: string): string {
    "(?<" + name + ">.*)"
  }

  function Render(ts: seq<Token>): string {
    if ts == [] then ""
    else (match ts[0] case Lit(t) => Escape(t) case Cap(n) => CapGroup(n)) + Render(ts[1..])
  }

  /** The regex string: delimiters, the rendered tokens, the end anchor. */
  function Compile(ts: seq<Token>): string {
    "/" + Render(ts) + "$/"
  }

  // ---------------------------------------------------------------------
  // Reading a regex string of the family back into tokens

  /** The length of the run of name characters at the start of `s`. */
  function NameRun(s: string): (n: nat)
    ensures n <= |s| && IsName(s[..n])
    ensures n < |s| ==> !IsNameChar(s[n])
  {
    if |s| > 0 && IsNameChar(s[0]) then
      var n := 1 + NameRun(s[1..]);
      assert s[..n] == [s[0]] + s[1..][..n - 1];
      n
    else 0
  }

  /** Prepends one literal character, merging it into a leading literal. */
  function ConsChar(c: char, ts: seq<Token>): seq<Token> {
    if ts != [] && ts[0].Lit? then [Lit([c] + ts[0].text)] + ts[1..] else [Lit([c])] + ts
  }

  function ConsCharOpt(c: char, r: Option<seq<Token>>): Option<seq<Token>> {
    match r case None => None case Some(ts) => Some(ConsChar(c, ts))
  }

  /** Tokens of a regex body (everything between the delimiters), ending in `$`. */
  function ParseBody(s: string): Option<seq<Token>>
    decreases |s|
  {
    if s == "$" then Some([])
    else if |s| >= 2 && s[0] == '\\' && s[1] == '/' then ConsCharOpt('/', ParseBody(s[2..]))
    else if StartsWith(s, "(?<") then
      var n := NameRun(s[3..]);
      if 0 < n <= MaxNameLength && StartsWith(s[3 + n..], ">.*)") then
        match ParseBody(s[3 + n + 4..])
        case Some(ts) => Some([Cap(s[3..3 + n])] + ts)
        case None => None
      else None
    else if |s| >= 1 && LiteralChar(s[0]) then ConsCharOpt(s[0], ParseBody(s[1..]))
    else None
  }

  /** The tokens of a delimited regex string, if it belongs to the family. */
  function ParseRegex(r: string): Option<seq<Token>> {
    if |r| >= 2 && r[0] == '/' && r[|r| - 1] == '/' then ParseBody(r[1..|r| - 1]) else None
  }

  lemma WellFormedTail(ts: seq<Token>)
    requires |ts| > 0 && WellFormed(ts)
    ensures WellFormed(ts[1..])
  {
    var ns := CapNames(ts);
    if ts[0].Cap? {
      assert CapNames(ts[1..]) == ns[1..];
    } else {
      assert CapNames(ts[1..]) == ns;
    }
  }

  lemma EscapeCons(c: char, t: string)
    ensures Escape([c] + t) == (if c == '/' then "\\/" else [c]) + Escape(t)
  {
    var s := [c] + t;
    assert s[1..] == t;
    if c == '/' {
      assert StartsWith(s, "/");
    } else {
      assert !StartsWith(s, "/");
    }
  }

  lemma ParseBodySlash(tail: string)
    ensures ParseBody("\\/" + tail) == ConsCharOpt('/', ParseBody(tail))
  {
    var s := "\\/" + tail;
    assert s[2..] == tail;
  }

  lemma ParseBodyLiteral(c: char, tail: string)
    requires LiteralChar(c) && |tail| > 0
    ensures ParseBody([c] + tail) == ConsCharOpt(c, ParseBody(tail))
  {
    var s := [c] + tail;
    assert s[1..] == tail;
    if |s| >= 3 {
      assert s[..3][0] == c;
    }
    assert !StartsWith(s, "(?<");
  }

  /** One character of an escaped literal in front of a nonempty body. */
  lemma ParseEscapedChar(c: char, t: string, u: string)
    requires LiteralChar(c) && |u| > 0
    ensures ParseBody(Escape([c] + t) + u) == ConsCharOpt(c, ParseBody(Escape(t) + u))
  {
    EscapedConsShape(c, t, u);
    if c == '/' {
      ParseBodySlash(Escape(t) + u);
    } else {
      ParseBodyLiteral(c, Escape(t) + u);
    }
  }

  lemma EscapedConsShape(c: char, t: string, u: string)
    ensures Escape([c] + t) + u == (if c == '/' then "\\/" else [c]) + (Escape(t) + u)
  {
    EscapeCons(c, t);
  }

  /** Parsing the escaped literal `t` in front of a body `u` that reads as `rest`. */
  lemma {:induction false} ParseLiteral(t: string, u: string, rest: seq<Token>)
    requires AllLiteral(t)
    requires rest != [] ==> rest[0].Cap?
    requires ParseBody(u) == Some(rest) && |u| > 0
    ensures ParseBody(Escape(t) + u) == Some(if t == "" then rest else [Lit(t)] + rest)
    decreases |t|
  {
    if t == "" {
      assert Escape(t) + u == u;
    } else {
      var c, t' := t[0], t[1..];
      assert t == [c] + t';
      assert AllLiteral(t');
      ParseLiteral(t', u, rest);
      ParseEscapedChar(c, t', u);
      var expected := if t' == "" then rest else [Lit(t')] + rest;
      assert ParseBody(Escape(t) + u) == Some(ConsChar(c, expected));
      if t' == "" {
        assert t == [c];
        assert ConsChar(c, expected) == [Lit([c])] + rest;
      } else {
        assert ConsChar(c, expected) == [Lit([c] + t')] + rest;
      }
    }
  }

  lemma NameRunOfName(n: string, u: string)
    requires IsName(n) && |u| > 0 && !IsNameChar(u[0])
    ensures NameRun(n + u) == |n|
    decreases |n|
  {
    if |n| > 0 {
      assert (n + u)[1..] == n[1..] + u;
      NameRunOfName(n[1..], u);
    } else {
      assert n + u == u;
    }
  }

  lemma ParseCapGroup(n: string, tail: string)
    requires 0 < |n| <= MaxNameLength && IsName(n)
    ensures ParseBody(CapGroup(n) + tail) ==
      if ParseBody(tail).Some? then Some([Cap(n)] + ParseBody(tail).value) else None
  {
    CapGroupShape(n, tail);
    ParseBodyGroupAt(CapGroup(n) + tail, n, tail);
  }

  lemma CapGroupShape(n: string, tail: string)
    requires IsName(n)
    ensures var s := CapGroup(n) + tail;
      && |s| >= 3 + |n| + 4 && s[0] == '(' && s[1] == '?' && s[2] == '<'
      && NameRun(s[3..]) == |n| && s[3..3 + |n|] == n
      && StartsWith(s[3 + |n|..], ">.*)") && s[3 + |n| + 4..] == tail
  {
    var s := CapGroup(n) + tail;
    var u := ">.*)" + tail;
    assert s == "(?<" + (n + u);
    assert s[3..] == n + u;
    NameRunOfName(n, u);
    assert s[3 + |n|..] == u;
    assert u[..4] == ">.*)";
    assert s[3 + |n| + 4..] == tail;
    assert s[3..3 + |n|] == n;
  }

  /** A body that opens a named group with a valid name reads as that group before the rest. */
  lemma ParseBodyGroupAt(s: string, n: string, tail: string)
    requires |s| >= 3 + |n| + 4 && s[0] == '(' && s[1] == '?' && s[2] == '<'
    requires 0 < |n| <= MaxNameLength && NameRun(s[3..]) == |n| && s[3..3 + |n|] == n
    requires StartsWith(s[3 + |n|..], ">.*)") && s[3 + |n| + 4..] == tail
    ensures ParseBody(s) == if ParseBody(tail).Some? then Some([Cap(n)] + ParseBody(tail).value) else None
  {
    assert s[..3] == "(?<";
    assert s != "$";
  }

  lemma {:induction false} ParseBodyRender(ts: seq<Token>)
    requires WellFormed(ts)
    ensures ParseBody(Render(ts) + "$") == Some(ts)
    decreases |ts|
  {
    if ts == [] {
      assert Render(ts) + "$" == "$";
    } else {
      WellFormedTail(ts);
      var rest := ts[1..];
      assert ts == [ts[0]] + rest;
      assert TokenOk(ts[0]);
      ParseBodyRender(rest);
      match ts[0]
      case Cap(n) =>
        assert Render(ts) + "$" == CapGroup(n) + (Render(rest) + "$");
        ParseCapGroup(n, Render(rest) + "$");
      case Lit(t) =>
        if rest != [] {
          assert !(ts[0].Lit? && ts[1].Lit?);
        }
        ParseLiteral(t, Render(rest) + "$", rest);
        assert Render(ts) + "$" == Escape(t) + (Render(rest) + "$");
    }
  }

  /** The regex string of a well-formed token list reads back as that list. */
  lemma ParseCompile(ts: seq<Token>)
    requires WellFormed(ts)
    ensures ParseRegex(Compile(ts)) == Some(ts)
  {
    var r := Compile(ts);
    assert r[1..|r| - 1] == Render(ts) + "$";
    ParseBodyRender(ts);
  }

  // ---------------------------------------------------------------------
  // What preg_match does with such a regex

  /** The subject a list of tokens spells out once each group is given its text. */
  function Fill(ts: seq<Token>, caps: seq<string>): string
    requires |caps| == CapCount(ts)
  {
    if ts == [] then ""
    else match ts[0]
      case Lit(t) => t + Fill(ts[1..], caps)
      case Cap(_) => caps[0] + Fill(ts[1..], caps[1..])
  }

  predicate LiteralAt(path: string, i: nat, t: string)
    requires i <= |path|
  {
    i + |t| <= |path| && path[i..i + |t|] == t
  }

  /**
   * Matching `ts` followed by `$` at position `i` of the subject, trying
   * the possibilities in PCRE's backtracking order; the result holds the
   * groups' texts.
   */
  function MatchAt(ts: seq<Token>, path: string, i: nat): (r: Option<seq<string>>)
    requires i <= |path|
    ensures r.Some? ==> |r.value| == CapCount(ts) && Fill(ts, r.value) == path[i..]
    decreases |ts|, 0, 0
  {
    if ts == [] then (if i == |path| then Some([]) else None)
    else match ts[0]
      case Lit(t) => if LiteralAt(path, i, t) then MatchAt(ts[1..], path, i + |t|) else None
      case Cap(_) =>
        match LongestEnd(ts[1..], path, i, |path|)
        case Some(e) => Some([path[i..e]] + MatchAt(ts[1..], path, e).value)
        case None => None
  }

  /**
   * Where a greedy `.*` that starts at `i` ends: it tries `j`, then `j - 1`,
   * down to `i`, and stops at the first end after which the rest matches.
   */
  function LongestEnd(rest: seq<Token>, path: string, i: nat, j: nat): (r: Option<nat>)
    requires i <= j <= |path|
    ensures r.Some? ==> i <= r.value <= j && MatchAt(rest, path, r.value).Some?
    ensures r.Some? ==> forall k :: r.value < k <= j ==> MatchAt(rest, path, k).None?
    ensures r.None? ==> forall k :: i <= k <= j ==> MatchAt(rest, path, k).None?
    decreases |rest|, 1, j - i
  {
    if MatchAt(rest, path, j).Some? then Some(j)
    else if j == i then None
    else
      var r := LongestEnd(rest, path, i, j - 1);
      assert MatchAt(rest, path, j).None?;
      assert r.Some? ==> forall k :: r.value < k <= j - 1 ==> MatchAt(rest, path, k).None?;
      r
  }

  /** The unanchored search: the first start position from `s` on at which the tokens match. */
  function Leftmost(ts: seq<Token>, path: string, s: nat): (r: Option<(nat, seq<string>)>)
    requires s <= |path|
    ensures r.Some? ==> s <= r.value.0 <= |path| && MatchAt(ts, path, r.value.0) == Some(r.value.1)
    ensures r.Some? ==> forall k :: s <= k < r.value.0 ==> MatchAt(ts, path, k).None?
    ensures r.None? ==> forall k :: s <= k <= |path| ==> MatchAt(ts, path, k).None?
    decreases |path| - s
  {
    match MatchAt(ts, path, s)
    case Some(cs) => Some((s, cs))
    case None => if s == |path| then None else Leftmost(ts, path, s + 1)
  }

  /** `preg_match($regex, $path, $m)`: where the match starts, and the groups' texts. */
  function PregMatch(ts: seq<Token>, path: string): Option<(nat, seq<string>)> {
    Leftmost(ts, path, 0)
  }

  /** The text of the group called `name`. */
  function CaptureOf(ts: seq<Token>, caps: seq<string>, name: string): (r: Option<string>)
    requires |caps| == CapCount(ts)
    ensures r.Some? <==> name in CapNames(ts)
  {
    if ts == [] then None
    else if ts[0].Cap? then (if ts[0].name == name then Some(caps[0]) else CaptureOf(ts[1..], caps[1..], name))
    else CaptureOf(ts[1..], caps, name)
  }

  /** One literal step: the subject continues with the literal, and matching moves past it. */
  lemma LitStep(ts: seq<Token>, path: string, i: nat, caps: seq<string>)
    requires ts != [] && ts[0].Lit?
    requires i <= |path| && |caps| == CapCount(ts) && Fill(ts, caps) == path[i..]
    ensures i + |ts[0].text| <= |path| && |caps| == CapCount(ts[1..])
    ensures path[i + |ts[0].text|..] == Fill(ts[1..], caps)
    ensures MatchAt(ts, path, i) == MatchAt(ts[1..], path, i + |ts[0].text|)
  {
    var t := ts[0].text;
    var tail := Fill(ts[1..], caps);
    assert path[i..] == t + tail;
    assert path[i..i + |t|] == (t + tail)[..|t|];
    assert path[i + |t|..] == tail;
  }

  /** A leading group matches whenever the rest matches at some end, and it ends at the greedy end. */
  lemma CapStep(ts: seq<Token>, path: string, i: nat, e: nat)
    requires ts != [] && ts[0].Cap? && i <= e <= |path| && MatchAt(ts[1..], path, e).Some?
    ensures LongestEnd(ts[1..], path, i, |path|).Some?
    ensures var g := LongestEnd(ts[1..], path, i, |path|).value;
      e <= g <= |path| && MatchAt(ts, path, i) == Some([path[i..g]] + MatchAt(ts[1..], path, g).value)
  {
  }

  /** If the tokens can spell out the rest of the subject, MatchAt finds a match. */
  lemma {:induction false} MatchAtComplete(ts: seq<Token>, path: string, i: nat, caps: seq<string>)
    requires i <= |path| && |caps| == CapCount(ts) && Fill(ts, caps) == path[i..]
    ensures MatchAt(ts, path, i).Some?
    decreases |ts|
  {
    if ts != [] {
      if ts[0].Lit? {
        LitStep(ts, path, i, caps);
        MatchAtComplete(ts[1..], path, i + |ts[0].text|, caps);
      } else {
        GroupFillSplit(ts, path, i, caps);
        var e := i + |caps[0]|;
        MatchAtComplete(ts[1..], path, e, caps[1..]);
        CapStep(ts, path, i, e);
      }
    }
  }

  /**
   * PCRE's preference between two ways of matching: the first group that
   * differs is longer in the preferred one.
   */
  predicate Preferred(ts: seq<Token>, caps: seq<string>, other: seq<string>)
    requires |caps| == CapCount(ts) && |other| == CapCount(ts)
  {
    if ts == [] then true
    else if ts[0].Lit? then Preferred(ts[1..], caps, other)
    else |caps[0]| > |other[0]| || (caps[0] == other[0] && Preferred(ts[1..], caps[1..], other[1..]))
  }

  lemma PreferredCons(ts: seq<Token>, caps: seq<string>, other: seq<string>)
    requires ts != [] && |caps| == CapCount(ts) && |other| == CapCount(ts)
    ensures ts[0].Lit? ==> (Preferred(ts, caps, other) <==> Preferred(ts[1..], caps, other))
    ensures ts[0].Cap? ==> (Preferred(ts, caps, other) <==>
      |caps[0]| > |other[0]| || (caps[0] == other[0] && Preferred(ts[1..], caps[1..], other[1..])))
  {
  }

  /** MatchAt returns the way of matching PCRE prefers over every other. */
  lemma {:induction false} MatchAtPreferred(ts: seq<Token>, path: string, i: nat, other: seq<string>)
    requires i <= |path| && |other| == CapCount(ts) && Fill(ts, other) == path[i..]
    ensures MatchAt(ts, path, i).Some? && Preferred(ts, MatchAt(ts, path, i).value, other)
    decreases |ts|
  {
    MatchAtComplete(ts, path, i, other);
    if ts != [] {
      var caps := MatchAt(ts, path, i).value;
      PreferredCons(ts, caps, other);
      if ts[0].Lit? {
        LitStep(ts, path, i, other);
        MatchAtPreferred(ts[1..], path, i + |ts[0].text|, other);
      } else {
        GroupFillSplit(ts, path, i, other);
        var e' := i + |other[0]|;
        MatchAtComplete(ts[1..], path, e', other[1..]);
        CapStep(ts, path, i, e');
        var g := LongestEnd(ts[1..], path, i, |path|).value;
        assert caps[0] == path[i..g] && caps[1..] == MatchAt(ts[1..], path, g).value;
        if g == e' {
          MatchAtPreferred(ts[1..], path, e', other[1..]);
        }
      }
    }
  }

  /**
   * `preg_match` finds a match exactly when some start position and some
   * texts for the groups spell out the subject from that position to its
   * end; it takes the leftmost such start and, there, PCRE's preferred texts.
   */
  lemma PregMatchMeaning(ts: seq<Token>, path: string, start: nat, other: seq<string>)
    requires start <= |path| && |other| == CapCount(ts) && Fill(ts, other) == path[start..]
    ensures PregMatch(ts, path).Some?
    ensures PregMatch(ts, path).value.0 <= start
    ensures PregMatch(ts, path).value.0 == start ==> Preferred(ts, PregMatch(ts, path).value.1, other)
  {
    MatchAtPreferred(ts, path, start, other);
  }

  /** Whatever `preg_match` returns spells out the subject from the match start to its end. */
  lemma PregMatchSound(ts: seq<Token>, path: string)
    requires PregMatch(ts, path).Some?
    ensures var (s, caps) := PregMatch(ts, path).value;
      s <= |path| && |caps| == CapCount(ts) && Fill(ts, caps) == path[s..]
      && forall k :: 0 <= k < s ==> MatchAt(ts, path, k).None?
  {
  }

  // ---------------------------------------------------------------------
  // Substituting values into a pattern and matching the result

  /** Every group is the last token or is followed by a literal that starts with '/'. */
  predicate Separated(ts: seq<Token>) {
    forall i :: 0 <= i < |ts| - 1 ==> ts[i].Cap? ==> ts[i + 1].Lit? && |ts[i + 1].text| > 0 && ts[i + 1].text[0] == '/'
  }

  function Slashes(s: string): nat {
    multiset(s)['/']
  }

  function LiteralSlashes(ts: seq<Token>): nat {
    if ts == [] then 0
    else (if ts[0].Lit? then Slashes(ts[0].text) else 0) + LiteralSlashes(ts[1..])
  }

  predicate SlashFree(caps: seq<string>) {
    forall i :: 0 <= i < |caps| ==> '/' !in caps[i]
  }

  lemma {:induction false} FillSlashes(ts: seq<Token>, caps: seq<string>)
    requires |caps| == CapCount(ts)
    ensures Slashes(Fill(ts, caps)) >= LiteralSlashes(ts)
    ensures SlashFree(caps) ==> Slashes(Fill(ts, caps)) == LiteralSlashes(ts)
    decreases |ts|
  {
    if ts != [] {
      match ts[0]
      case Lit(t) =>
        FillSlashes(ts[1..], caps);
        assert multiset(t + Fill(ts[1..], caps)) == multiset(t) + multiset(Fill(ts[1..], caps));
      case Cap(_) =>
        FillSlashes(ts[1..], caps[1..]);
        assert multiset(caps[0] + Fill(ts[1..], caps[1..])) == multiset(caps[0]) + multiset(Fill(ts[1..], caps[1..]));
        if SlashFree(caps) {
          assert '/' !in caps[0];
          assert SlashFree(caps[1..]) by {
            forall k | 0 <= k < |caps[1..]| ensures '/' !in caps[1..][k] {
              assert caps[1..][k] == caps[k + 1];
            }
          }
        }
    }
  }

  lemma SlashesOfSuffix(s: string, e: nat, k: nat)
    requires e < k <= |s| && s[e] == '/'
    ensures Slashes(s[k..]) < Slashes(s[e..])
  {
    assert s[e..] == [s[e]] + s[e + 1..k] + s[k..];
    assert multiset(s[e..]) == multiset([s[e]]) + multiset(s[e + 1..k]) + multiset(s[k..]);
  }

  lemma SlashFreeTail(vals: seq<string>)
    requires |vals| > 0 && SlashFree(vals)
    ensures SlashFree(vals[1..])
  {
    forall k | 0 <= k < |vals[1..]| ensures '/' !in vals[1..][k] {
      assert vals[1..][k] == vals[k + 1];
    }
  }

  /**
   * After a slash-free substitution into a pattern that is empty or starts
   * with a literal '/', no later start position can match: it would leave
   * fewer slashes than the literals need.
   */
  lemma NoLaterMatch(rest: seq<Token>, path: string, e: nat, k: nat, vals: seq<string>)
    requires rest != [] ==> rest[0].Lit? && |rest[0].text| > 0 && rest[0].text[0] == '/'
    requires e < k <= |path| && |vals| == CapCount(rest) && SlashFree(vals) && Fill(rest, vals) == path[e..]
    ensures MatchAt(rest, path, k).None?
  {
    if MatchAt(rest, path, k).Some? {
      var caps := MatchAt(rest, path, k).value;
      FillSlashes(rest, vals);
      FillSlashes(rest, caps);
      assert rest != [];
      assert Fill(rest, vals) == rest[0].text + Fill(rest[1..], vals);
      assert path[e] == Fill(rest, vals)[0];
      SlashesOfSuffix(path, e, k);
    }
  }

  /** Where the text given to a leading group ends in the subject. */
  lemma GroupFillSplit(ts: seq<Token>, path: string, i: nat, vals: seq<string>)
    requires |ts| > 0 && ts[0].Cap?
    requires i <= |path| && |vals| == CapCount(ts) && Fill(ts, vals) == path[i..]
    ensures i + |vals[0]| <= |path| && path[i..i + |vals[0]|] == vals[0]
    ensures path[i + |vals[0]|..] == Fill(ts[1..], vals[1..])
  {
    var tail := Fill(ts[1..], vals[1..]);
    assert path[i..] == vals[0] + tail;
    assert path[i..][..|vals[0]|] == vals[0];
  }

  /**
   * In a separated pattern, the greedy group in front of a slash-free value
   * stops exactly where the value ends.
   */
  lemma FilledGroupEnd(ts: seq<Token>, path: string, i: nat, vals: seq<string>)
    requires |ts| > 0 && ts[0].Cap? && Separated(ts)
    requires i <= |path| && |vals| == CapCount(ts) && SlashFree(vals) && Fill(ts, vals) == path[i..]
    ensures i + |vals[0]| <= |path| && LongestEnd(ts[1..], path, i, |path|) == Some(i + |vals[0]|)
  {
    GroupFillSplit(ts, path, i, vals);
    var e := i + |vals[0]|;
    MatchAtComplete(ts[1..], path, e, vals[1..]);
    SlashFreeTail(vals);
    SeparatedAfterGroup(ts);
    NoLaterMatches(ts[1..], path, e, vals[1..]);
    LongestEndIs(ts[1..], path, i, e);
  }

  lemma SeparatedAfterGroup(ts: seq<Token>)
    requires |ts| > 0 && ts[0].Cap? && Separated(ts)
    ensures ts[1..] != [] ==> ts[1..][0].Lit? && |ts[1..][0].text| > 0 && ts[1..][0].text[0] == '/'
  {
    if |ts| > 1 {
      assert ts[1..][0] == ts[1];
    }
  }

  lemma NoLaterMatches(rest: seq<Token>, path: string, e: nat, vals: seq<string>)
    requires rest != [] ==> rest[0].Lit? && |rest[0].text| > 0 && rest[0].text[0] == '/'
    requires e <= |path| && |vals| == CapCount(rest) && SlashFree(vals) && Fill(rest, vals) == path[e..]
    ensures forall k :: e < k <= |path| ==> MatchAt(rest, path, k).None?
  {
    forall k | e < k <= |path| ensures MatchAt(rest, path, k).None? {
      NoLaterMatch(rest, path, e, k, vals);
    }
  }

  /** The greedy end is the last position after which the rest matches. */
  lemma LongestEndIs(rest: seq<Token>, path: string, i: nat, e: nat)
    requires i <= e <= |path| && MatchAt(rest, path, e).Some?
    requires forall k :: e < k <= |path| ==> MatchAt(rest, path, k).None?
    ensures LongestEnd(rest, path, i, |path|) == Some(e)
  {
  }

  /**
   * Substituting slash-free texts into a separated pattern and matching the
   * result at the substitution's start gives back exactly those texts.
   */
  lemma {:induction false} MatchAtFilled(ts: seq<Token>, path: string, i: nat, vals: seq<string>)
    requires Separated(ts)
    requires i <= |path| && |vals| == CapCount(ts) && SlashFree(vals) && Fill(ts, vals) == path[i..]
    ensures MatchAt(ts, path, i) == Some(vals)
    decreases |ts|
  {
    if ts != [] {
      assert Separated(ts[1..]);
      if ts[0].Lit? {
        LitStep(ts, path, i, vals);
        MatchAtFilled(ts[1..], path, i + |ts[0].text|, vals);
      } else {
        GroupFillSplit(ts, path, i, vals);
        var e := i + |vals[0]|;
        SlashFreeTail(vals);
        MatchAtFilled(ts[1..], path, e, vals[1..]);
        FilledGroupEnd(ts, path, i, vals);
        CapStep(ts, path, i, e);
        assert vals == [vals[0]] + vals[1..];
      }
    }
  }

  /** `preg_match` on a path made by substituting slash-free values returns those values. */
  lemma PregMatchFilled(ts: seq<Token>, vals: seq<string>)
    requires Separated(ts)
    requires |vals| == CapCount(ts) && SlashFree(vals)
    ensures PregMatch(ts, Fill(ts, vals)) == Some((0, vals))
  {
    var path := Fill(ts, vals);
    assert path[0..] == path;
    MatchAtFilled(ts, path, 0, vals);
  }
}
