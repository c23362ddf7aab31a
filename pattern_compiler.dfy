/**
 * How a route pattern such as `/items/{id::int}` becomes a regex string and
 * a parameter table. The string-level steps are those of `extractParams`:
 * escape '/', add the delimiters and the end anchor, collect the
 * placeholders with `preg_match_all`, and substitute them with
 * `preg_replace`. Beside them stands a structural reading of the pattern
 * into literal text and placeholders, and the two are proved to agree.
 */
module PatternCompiler {
  import opened Values
  import opened Strings
  import opened Regex
  import opened Seqs

  // ---------------------------------------------------------------------
  // The placeholder recogniser  \{(([a-zA-Z_]*)(?>::int|float)?)}

  /** A recognised placeholder: its name (group 2) and whether `::int` follows it. */
  datatype Placeholder = Placeholder(name: string, typed: bool)

  /** Group 1 of the recogniser: the name, with `::int` when typed. */
  function Group1(ph: Placeholder): string {
    ph.name + (if ph.typed then "::int" else "")
  }

  /** The whole text the recogniser consumes. */
  function PlaceholderText(ph: Placeholder): string {
    "{" + Group1(ph) + "}"
  }

  /** The three ways the optional suffix group can be taken. */
  datatype Suffix = NoSuffix | IntSuffix | FloatSuffix

  function SuffixText(x: Suffix): string {
    match x
    case NoSuffix => ""
    case IntSuffix => "::int"
    case FloatSuffix => "float"
  }

  function SuffixOf(ph: Placeholder): Suffix {
    if ph.typed then IntSuffix else NoSuffix
  }

  /**
   * The recogniser can match at the start of `s` with a letter run of
   * length `k` followed by suffix `x` and the closing brace.
   */
  predicate Candidate(s: string, k: nat, x: Suffix) {
    && |s| > 0 && s[0] == '{' && 1 + k <= |s|
    && IsName(s[1..1 + k])
    && StartsWith(s[1 + k..], SuffixText(x) + "}")
  }

  /**
   * The match the recogniser makes at the start of `s`, if any: the whole
   * run of name characters, then either `}` or `::int}`.
   */
  function PlaceholderAt(s: string): (r: Option<Placeholder>)
    ensures r.Some? ==> |PlaceholderText(r.value)| <= |s|
  {
    if |s| == 0 || s[0] != '{' then None
    else
      var n := NameRun(s[1..]);
      if StartsWith(s[1 + n..], "}") then Some(Placeholder(s[1..1 + n], false))
      else if StartsWith(s[1 + n..], "::int}") then Some(Placeholder(s[1..1 + n], true))
      else None
  }

  /** What the recogniser finds is a placeholder text at the start of `s`, with a name of name characters. */
  lemma PlaceholderSound(s: string)
    requires PlaceholderAt(s).Some?
    ensures var ph := PlaceholderAt(s).value;
      IsName(ph.name) && StartsWith(s, PlaceholderText(ph)) && Candidate(s, |ph.name|, SuffixOf(ph))
  {
    var n := NameRun(s[1..]);
    var name := s[1..1 + n];
    assert name == s[1..][..n];
    if StartsWith(s[1 + n..], "}") {
      assert s[..n + 2] == [s[0]] + s[1..1 + n] + s[1 + n..][..1];
    } else {
      assert s[..n + 7] == [s[0]] + s[1..1 + n] + s[1 + n..][..6];
    }
  }

  lemma {:induction false} NameRunExact(x: string, m: nat)
    requires m <= |x| && IsName(x[..m]) && (m == |x| || !IsNameChar(x[m]))
    ensures NameRun(x) == m
  {
  }

  /**
   * PCRE tries the letter run longest first and, at each length, the
   * suffixes in the order `::int`, `float`, none. Whatever way the
   * recogniser can match, `PlaceholderAt` has found a match with a run at
   * least as long, and at the same length the suffix is the same. So its
   * result is the first match in PCRE's order, and its suffix is never
   * `float`: at the longest run an `f` cannot follow, and a shorter run
   * followed by `float}` is a longer run followed by `}`.
   */
  lemma RecogniserChoice(s: string, k: nat, x: Suffix)
    requires Candidate(s, k, x)
    ensures PlaceholderAt(s).Some?
    ensures k <= |PlaceholderAt(s).value.name|
    ensures k == |PlaceholderAt(s).value.name| ==> x == SuffixOf(PlaceholderAt(s).value)
  {
    var t := s[1..];
    var n := NameRun(t);
    CandidateTail(s, k, x);
    NameRunAtLeast(t, k);
    assert s[1 + n..] == t[n..] && s[1..1 + n] == t[..n];
    if k < n {
      FloatCase(t, k, x);
    } else {
      SuffixAtRunEnd(t, x);
    }
  }

  lemma CandidateTail(s: string, k: nat, x: Suffix)
    requires Candidate(s, k, x)
    ensures k <= |s[1..]| && IsName(s[1..][..k]) && StartsWith(s[1..][k..], SuffixText(x) + "}")
  {
    assert s[1..1 + k] == s[1..][..k];
    assert s[1 + k..] == s[1..][k..];
  }

  lemma {:induction false} NameRunAtLeast(t: string, k: nat)
    requires k <= |t| && IsName(t[..k])
    ensures k <= NameRun(t)
  {
  }

  /** A candidate with a shorter run than the longest is `float}` after the run, and the longest run then ends at its `}`. */
  lemma FloatCase(t: string, k: nat, x: Suffix)
    requires k < NameRun(t) && StartsWith(t[k..], SuffixText(x) + "}")
    ensures x == FloatSuffix && NameRun(t) == k + 5 && StartsWith(t[k + 5..], "}")
  {
    var n := NameRun(t);
    var w := SuffixText(x) + "}";
    assert t[..n][k] == t[k];
    assert t[k..][..|w|][0] == t[k];
    assert x == FloatSuffix;
    assert IsName(t[..k + 5]) by {
      forall j | 0 <= j < k + 5 ensures IsNameChar(t[j]) {
        if j < k {
          assert t[..n][j] == t[j];
        } else {
          assert t[k..][..|w|][j - k] == t[j];
        }
      }
    }
    assert t[k..][..|w|][5] == t[k + 5];
    NameRunExact(t, k + 5);
    assert t[k + 5..][..1] == [t[k + 5]];
  }

  /** At the end of the longest run, the suffix decides: `}` alone or `::int}`; never `float}`. */
  lemma SuffixAtRunEnd(t: string, x: Suffix)
    requires StartsWith(t[NameRun(t)..], SuffixText(x) + "}")
    ensures x != FloatSuffix
    ensures StartsWith(t[NameRun(t)..], "}") <==> x == NoSuffix
    ensures x == IntSuffix ==> StartsWith(t[NameRun(t)..], "::int}")
  {
    var n := NameRun(t);
    var w := SuffixText(x) + "}";
    assert t[n..][..|w|][0] == t[n];
    assert t[n..][..1] == [t[n]];
  }

  /** `{x::float}` is not a placeholder: it stays as literal text. */
  lemma FloatNotRecognised()
    ensures PlaceholderAt("{x::float}") == None
  {
    var s := "{x::float}";
    assert s[1..][0] == 'x' && s[1..][1] == ':';
    NameRunExact(s[1..], 1);
    assert s[2..][..1] != "}";
    assert s[2..][..6][2] == 'f';
  }

  /** A brace group holding anything but name characters is not a placeholder. */
  lemma DigitNotRecognised()
    ensures PlaceholderAt("{id1}") == None
  {
    var s := "{id1}";
    assert s[1..][..2] == "id";
    NameRunExact(s[1..], 2);
    assert s[3..][..1] != "}";
  }

  // ---------------------------------------------------------------------
  // The string-level construction of extractParams

  /** The regex string before the placeholders are substituted. */
  function EscapedPattern(p: string): string {
    "/" + Escape(p) + "$/"
  }

  /**
   * `preg_match_all` with the recogniser: group 1 of each match, scanning
   * left to right; after a match the scan resumes at its end.
   */
  function MatchAllGroup1(s: string): seq<string>
    decreases |s|
  {
    if s == [] then []
    else match PlaceholderAt(s)
      case Some(ph) => [Group1(ph)] + MatchAllGroup1(s[|PlaceholderText(ph)|..])
      case None => MatchAllGroup1(s[1..])
  }

  /** `preg_replace` with the recogniser and the replacement `(?<$2>.*)`. */
  function ReplaceAll(s: string): string
    decreases |s|
  {
    if s == [] then ""
    else match PlaceholderAt(s)
      case Some(ph) => CapGroup(ph.name) + ReplaceAll(s[|PlaceholderText(ph)|..])
      case None => [s[0]] + ReplaceAll(s[1..])
  }

  /**
   * One step of the loop over the collected groups: `explode("::", $g)`,
   * the name before the separator and the datatype after it, 'string'
   * when there is none.
   */
  function GroupEntry(g: string): (string, string) {
    var split := Explode(g, "::");
    (split[0], if |split| > 1 then split[1] else "string")
  }

  function GroupEntries(gs: seq<string>): (es: seq<(string, string)>)
    ensures |es| == |gs|
    ensures forall i :: 0 <= i < |gs| ==> es[i] == GroupEntry(gs[i])
  {
    seq(|gs|, i requires 0 <= i < |gs| => GroupEntry(gs[i]))
  }

  // ---------------------------------------------------------------------
  // The structural reading of a pattern

  datatype Segment = Text(text: string) | Param(ph: Placeholder)

  /** Prepends one character of literal text, merging it into a leading text segment. */
  function ConsText(c: char, segs: seq<Segment>): seq<Segment> {
    if segs != [] && segs[0].Text? then [Text([c] + segs[0].text)] + segs[1..] else [Text([c])] + segs
  }

  /** The pattern as literal text and placeholders, found by the same left-to-right scan. */
  function Segments(p: string): seq<Segment>
    decreases |p|
  {
    if p == [] then []
    else match PlaceholderAt(p)
      case Some(ph) => [Param(ph)] + Segments(p[|PlaceholderText(ph)|..])
      case None => ConsText(p[0], Segments(p[1..]))
  }

  /** The pattern text the segments were read from. */
  function Unparse(segs: seq<Segment>): string {
    if segs == [] then ""
    else (match segs[0] case Text(t) => t case Param(ph) => PlaceholderText(ph)) + Unparse(segs[1..])
  }

  function TokenOf(seg: Segment): Token {
    match seg
    case Text(t) => Lit(t)
    case Param(ph) => Cap(ph.name)
  }

  function ToTokens(segs: seq<Segment>): (ts: seq<Token>)
    ensures |ts| == |segs|
    ensures forall i :: 0 <= i < |segs| ==> ts[i] == TokenOf(segs[i])
  {
    if segs == [] then [] else [TokenOf(segs[0])] + ToTokens(segs[1..])
  }

  function Group1s(segs: seq<Segment>): seq<string> {
    if segs == [] then []
    else (if segs[0].Param? then [Group1(segs[0].ph)] else []) + Group1s(segs[1..])
  }

  function ParamNames(segs: seq<Segment>): seq<string> {
    if segs == [] then []
    else (if segs[0].Param? then [segs[0].ph.name] else []) + ParamNames(segs[1..])
  }

  /** The datatype a placeholder declares. */
  function Kind(ph: Placeholder): string {
    if ph.typed then "int" else "string"
  }

  function ParamEntries(segs: seq<Segment>): seq<(string, string)> {
    if segs == [] then []
    else (if segs[0].Param? then [(segs[0].ph.name, Kind(segs[0].ph))] else []) + ParamEntries(segs[1..])
  }

  /** The final regex string of a pattern, from its token form. */
  function CompiledRegex(p: string): string {
    Compile(ToTokens(Segments(p)))
  }

  /** The parameter table of a pattern: each placeholder assigned in order. */
  function ParamTable(p: string): Dict<string> {
    PutAll([], ParamEntries(Segments(p)))
  }

  // ---------------------------------------------------------------------
  // Facts about escaping and the recogniser

  lemma {:induction false} EscapeAppend(a: string, b: string)
    ensures Escape(a + b) == Escape(a) + Escape(b)
    decreases |a|
  {
    if a == [] {
      assert a + b == b;
    } else {
      assert a + b == [a[0]] + (a[1..] + b);
      assert a == [a[0]] + a[1..];
      EscapeCons(a[0], a[1..] + b);
      EscapeCons(a[0], a[1..]);
      EscapeAppend(a[1..], b);
    }
  }

  lemma EscapeNoSlash(a: string)
    requires '/' !in a
    ensures Escape(a) == a
  {
    StrReplaceNone(a, "/", "\\/");
  }

  lemma StartsWithCons(c: char, y: string, w: string)
    requires |w| > 0
    ensures StartsWith([c] + y, w) <==> c == w[0] && StartsWith(y, w[1..])
  {
    if |w| <= |y| + 1 {
      assert ([c] + y)[..|w|] == [c] + y[..|w| - 1];
      if c == w[0] && StartsWith(y, w[1..]) {
        assert w == [w[0]] + w[1..];
      }
    }
  }

  /** Escaping does not change whether a text free of '/' and '\' starts the string. */
  lemma {:induction false} EscapeStartsWith(y: string, w: string)
    requires '/' !in w && '\\' !in w
    ensures StartsWith(Escape(y), w) <==> StartsWith(y, w)
    decreases |y|
  {
    if w != [] && y != [] {
      var c := y[0];
      assert y == [c] + y[1..];
      EscapeCons(c, y[1..]);
      if c == '/' {
        assert Escape(y) == ['\\'] + ("/" + Escape(y[1..]));
        StartsWithCons('\\', "/" + Escape(y[1..]), w);
        StartsWithCons(c, y[1..], w);
      } else {
        EscapeStartsWith(y[1..], w[1..]);
        StartsWithCons(c, Escape(y[1..]), w);
        StartsWithCons(c, y[1..], w);
      }
    }
  }

  lemma StartsWithAppend(x: string, u: string, w: string)
    requires u == [] || u[0] !in w
    ensures StartsWith(x + u, w) <==> StartsWith(x, w)
  {
    if |x| >= |w| {
      assert (x + u)[..|w|] == x[..|w|];
    } else if u != [] && |x + u| >= |w| {
      assert (x + u)[..|w|][|x|] == u[0];
      assert w[|x|] != u[0];
    } else if u == [] {
      assert x + u == x;
    }
  }

  /** The characters that can extend or complete a placeholder. */
  predicate Relevant(c: char) {
    IsNameChar(c) || c == '{' || c == '}' || c == ':'
  }

  /** Text after a string, starting with an irrelevant character, cannot change what the recogniser finds at its start. */
  lemma PlaceholderStable(a: string, u: string)
    requires u == [] || !Relevant(u[0])
    ensures PlaceholderAt(a + u) == PlaceholderAt(a)
  {
    if a == [] {
      assert a + u == u;
    } else if a[0] == '{' {
      var x, y := a[1..], (a + u)[1..];
      assert y == x + u;
      NameRunAppend(x, u);
      var n := NameRun(x);
      assert y[..n] == x[..n];
      assert y[n..] == x[n..] + u;
      StartsWithAppend(x[n..], u, "}");
      StartsWithAppend(x[n..], u, "::int}");
      SameBraceReading(a, a + u, n);
    } else {
      PlaceholderAtNotBrace(a);
      assert (a + u)[0] == a[0];
      PlaceholderAtNotBrace(a + u);
    }
  }

  /** Two strings that open with a brace and the same name run, followed alike, are read alike. */
  lemma SameBraceReading(s: string, t: string, n: nat)
    requires s != [] && t != [] && s[0] == '{' && t[0] == '{'
    requires NameRun(s[1..]) == n && NameRun(t[1..]) == n && s[1..][..n] == t[1..][..n]
    requires StartsWith(s[1..][n..], "}") <==> StartsWith(t[1..][n..], "}")
    requires StartsWith(s[1..][n..], "::int}") <==> StartsWith(t[1..][n..], "::int}")
    ensures PlaceholderAt(s) == PlaceholderAt(t)
  {
    assert s[1 + n..] == s[1..][n..] && t[1 + n..] == t[1..][n..];
    assert s[1..1 + n] == s[1..][..n] && t[1..1 + n] == t[1..][..n];
  }

  /** Text starting with a non-name character does not extend the name run. */
  lemma NameRunAppend(x: string, u: string)
    requires u == [] || !IsNameChar(u[0])
    ensures NameRun(x + u) == NameRun(x)
  {
    var n := NameRun(x);
    assert (x + u)[..n] == x[..n];
    if n < |x| {
      assert (x + u)[n] == x[n];
    } else if u != [] {
      assert (x + u)[n] == u[0];
    }
    NameRunExact(x + u, n);
  }

  /** The recogniser on a string that starts with a brace, in terms of what follows the brace. */
  lemma PlaceholderAtBrace(x: string)
    ensures var n := NameRun(x);
      PlaceholderAt("{" + x) ==
        if StartsWith(x[n..], "}") then Some(Placeholder(x[..n], false))
        else if StartsWith(x[n..], "::int}") then Some(Placeholder(x[..n], true))
        else None
  {
    var s := "{" + x;
    assert s[1..] == x;
    var n := NameRun(x);
    assert s[1 + n..] == x[n..];
    assert s[1..1 + n] == x[..n];
  }

  /** Escaping keeps the run of name characters at the start, and escapes what follows it. */
  lemma EscapeNameSplit(x: string)
    ensures var n := NameRun(x);
      NameRun(Escape(x)) == n && Escape(x)[..n] == x[..n] && Escape(x)[n..] == Escape(x[n..])
  {
    var n := NameRun(x);
    assert x == x[..n] + x[n..];
    EscapeAppend(x[..n], x[n..]);
    EscapeNoSlash(x[..n]);
    var ex := Escape(x);
    assert ex == x[..n] + Escape(x[n..]);
    assert ex[..n] == x[..n];
    if n < |x| {
      EscapeCons(x[n], x[n + 1..]);
      assert x[n..] == [x[n]] + x[n + 1..];
      assert ex[n] == Escape(x[n..])[0];
    } else {
      assert x[n..] == [];
    }
    NameRunExact(ex, n);
  }

  /** Escaping a string does not change what the recogniser finds at its start. */
  lemma PlaceholderEscape(s: string)
    ensures PlaceholderAt(Escape(s)) == PlaceholderAt(s)
  {
    if s != [] {
      var x := s[1..];
      assert s == [s[0]] + x;
      EscapeCons(s[0], x);
      if s[0] == '{' {
        assert Escape(s) == "{" + Escape(x);
        BraceEscape(x);
      } else {
        var e := Escape(s);
        assert e[0] != '{';
        PlaceholderAtNotBrace(s);
        PlaceholderAtNotBrace(e);
      }
    }
  }

  lemma BraceEscape(x: string)
    ensures PlaceholderAt("{" + Escape(x)) == PlaceholderAt("{" + x)
  {
    var s, t := "{" + Escape(x), "{" + x;
    assert s[1..] == Escape(x) && t[1..] == x;
    EscapeNameSplit(x);
    var n := NameRun(x);
    EscapeStartsWith(x[n..], "}");
    EscapeStartsWith(x[n..], "::int}");
    SameBraceReading(s, t, n);
  }

  lemma PlaceholderTextNoSlash(ph: Placeholder)
    requires IsName(ph.name)
    ensures '/' !in PlaceholderText(ph) && '{' !in PlaceholderText(ph)[1..]
  {
    var t := PlaceholderText(ph);
    forall j | 0 <= j < |t| ensures t[j] != '/' && (j > 0 ==> t[j] != '{') {
      if 1 <= j <= |ph.name| {
        assert t[j] == ph.name[j - 1];
      }
    }
  }

  // ---------------------------------------------------------------------
  // The scans over a string with no placeholder

  lemma {:induction false} ScanPlain(u: string)
    requires '{' !in u
    ensures ReplaceAll(u) == u && MatchAllGroup1(u) == []
    decreases |u|
  {
    if u != [] {
      ScanPlain(u[1..]);
      assert u == [u[0]] + u[1..];
    }
  }

  // ---------------------------------------------------------------------
  // The escaped pattern scans to the structural reading

  lemma RenderCons(t: Token, ts: seq<Token>)
    ensures Render([t] + ts) == (match t case Lit(x) => Escape(x) case Cap(n) => CapGroup(n)) + Render(ts)
  {
    assert ([t] + ts)[1..] == ts;
  }

  lemma ConsTextFacts(c: char, segs: seq<Segment>)
    ensures Render(ToTokens(ConsText(c, segs))) == Escape([c]) + Render(ToTokens(segs))
    ensures Group1s(ConsText(c, segs)) == Group1s(segs)
    ensures ParamEntries(ConsText(c, segs)) == ParamEntries(segs)
    ensures ParamNames(ConsText(c, segs)) == ParamNames(segs)
    ensures Unparse(ConsText(c, segs)) == [c] + Unparse(segs)
  {
    ConsTextRender(c, segs);
    ConsTextLists(c, segs);
    ConsTextUnparse(c, segs);
  }

  lemma ConsTextRender(c: char, segs: seq<Segment>)
    ensures Render(ToTokens(ConsText(c, segs))) == Escape([c]) + Render(ToTokens(segs))
  {
    if segs != [] && segs[0].Text? {
      var t := segs[0].text;
      ConsParts(Text([c] + t), segs[1..]);
      ConsParts(segs[0], segs[1..]);
      assert segs == [segs[0]] + segs[1..];
      RenderCons(Lit([c] + t), ToTokens(segs[1..]));
      RenderCons(Lit(t), ToTokens(segs[1..]));
      EscapeAppend([c], t);
    } else {
      ConsParts(Text([c]), segs);
      RenderCons(Lit([c]), ToTokens(segs));
    }
  }

  lemma ConsTextLists(c: char, segs: seq<Segment>)
    ensures Group1s(ConsText(c, segs)) == Group1s(segs)
    ensures ParamEntries(ConsText(c, segs)) == ParamEntries(segs)
    ensures ParamNames(ConsText(c, segs)) == ParamNames(segs)
  {
    if segs != [] && segs[0].Text? {
      ConsParts(Text([c] + segs[0].text), segs[1..]);
    } else {
      ConsParts(Text([c]), segs);
    }
  }

  lemma ConsTextUnparse(c: char, segs: seq<Segment>)
    ensures Unparse(ConsText(c, segs)) == [c] + Unparse(segs)
  {
    if segs != [] && segs[0].Text? {
      var t := segs[0].text;
      ConsParts(Text([c] + t), segs[1..]);
      assert ([c] + t) + Unparse(segs[1..]) == [c] + (t + Unparse(segs[1..]));
    } else {
      ConsParts(Text([c]), segs);
    }
  }

  lemma ParamFacts(ph: Placeholder, segs: seq<Segment>)
    ensures Render(ToTokens([Param(ph)] + segs)) == CapGroup(ph.name) + Render(ToTokens(segs))
    ensures Group1s([Param(ph)] + segs) == [Group1(ph)] + Group1s(segs)
    ensures ParamEntries([Param(ph)] + segs) == [(ph.name, Kind(ph))] + ParamEntries(segs)
    ensures ParamNames([Param(ph)] + segs) == [ph.name] + ParamNames(segs)
    ensures Unparse([Param(ph)] + segs) == PlaceholderText(ph) + Unparse(segs)
  {
    assert ([Param(ph)] + segs)[1..] == segs;
    RenderCons(Cap(ph.name), ToTokens(segs));
  }

  /** The placeholder step of the scan over an escaped pattern. */
  lemma ScanStepParam(p: string, u: string, ph: Placeholder)
    requires u == [] || !Relevant(u[0])
    requires PlaceholderAt(p) == Some(ph)
    ensures PlaceholderAt(Escape(p) + u) == Some(ph)
    ensures (Escape(p) + u)[|PlaceholderText(ph)|..] == Escape(p[|PlaceholderText(ph)|..]) + u
  {
    PlaceholderEscape(p);
    PlaceholderStable(Escape(p), u);
    ScanRestAfterParam(p, u, ph);
  }

  lemma ScanRestAfterParam(p: string, u: string, ph: Placeholder)
    requires PlaceholderAt(p) == Some(ph)
    ensures Escape(p) == p[..|PlaceholderText(ph)|] + Escape(p[|PlaceholderText(ph)|..])
    ensures (Escape(p) + u)[|PlaceholderText(ph)|..] == Escape(p[|PlaceholderText(ph)|..]) + u
  {
    EscapeAfterPlaceholder(p, ph);
    var L := |PlaceholderText(ph)|;
    DropPrefix(p[..L], Escape(p[L..]) + u);
    assert Escape(p) + u == p[..L] + (Escape(p[L..]) + u);
  }

  /** The placeholder text at the start of a pattern survives escaping; the rest is escaped. */
  lemma EscapeAfterPlaceholder(p: string, ph: Placeholder)
    requires PlaceholderAt(p) == Some(ph)
    ensures var L := |PlaceholderText(ph)|; L <= |p| && |p[..L]| == L && Escape(p) == p[..L] + Escape(p[L..])
  {
    var L := |PlaceholderText(ph)|;
    PlaceholderSound(p);
    assert p == p[..L] + p[L..];
    PlaceholderTextNoSlash(ph);
    EscapeAppend(p[..L], p[L..]);
    EscapeNoSlash(p[..L]);
  }

  /** Where the recogniser finds nothing, the scans pass one character over. */
  lemma ScanNone(s: string)
    requires s != [] && PlaceholderAt(s) == None
    ensures ReplaceAll(s) == [s[0]] + ReplaceAll(s[1..]) && MatchAllGroup1(s) == MatchAllGroup1(s[1..])
  {
  }

  /** An escaped character in front of a rest at which the recogniser finds nothing passes unchanged. */
  lemma ScanLiteralChunk(e: string, rest: string)
    requires e == "\\/" || |e| == 1
    requires PlaceholderAt(e + rest) == None
    ensures ReplaceAll(e + rest) == e + ReplaceAll(rest) && MatchAllGroup1(e + rest) == MatchAllGroup1(rest)
  {
    ScanNone(e + rest);
    if |e| == 1 {
      assert (e + rest)[1..] == rest;
    } else {
      var t := "/" + rest;
      assert (e + rest)[1..] == t;
      assert t[1..] == rest;
      ScanNone(t);
    }
  }

  lemma EscapeHead(p: string, u: string)
    requires p != []
    ensures Escape(p) + u == Escape([p[0]]) + (Escape(p[1..]) + u)
    ensures Escape([p[0]]) == if p[0] == '/' then "\\/" else [p[0]]
  {
    assert p == [p[0]] + p[1..];
    EscapeAppend([p[0]], p[1..]);
    EscapeCons(p[0], []);
  }

  /** The literal step of the scan over an escaped pattern. */
  lemma ScanStepText(p: string, u: string)
    requires p != [] && (u == [] || !Relevant(u[0]))
    requires PlaceholderAt(p) == None
    ensures var s := Escape(p) + u; var rest := Escape(p[1..]) + u;
      ReplaceAll(s) == Escape([p[0]]) + ReplaceAll(rest) && MatchAllGroup1(s) == MatchAllGroup1(rest)
  {
    PlaceholderEscape(p);
    PlaceholderStable(Escape(p), u);
    EscapeHead(p, u);
    ScanLiteralChunk(Escape([p[0]]), Escape(p[1..]) + u);
  }

  /**
   * Substituting over the escaped pattern, followed by text that cannot
   * touch a placeholder, renders exactly the structural placeholders as
   * groups and the rest as escaped text.
   */
  lemma {:induction false} ReplaceEscaped(p: string, u: string)
    requires '{' !in u && (u == [] || !Relevant(u[0]))
    ensures ReplaceAll(Escape(p) + u) == Render(ToTokens(Segments(p))) + u
    decreases |p|
  {
    if p == [] {
      assert Escape(p) + u == u;
      ScanPlain(u);
    } else {
      match PlaceholderAt(p)
      case Some(ph) =>
        ReplaceEscaped(p[|PlaceholderText(ph)|..], u);
        ReplaceStepParam(p, u, ph);
      case None =>
        ReplaceEscaped(p[1..], u);
        ReplaceStepText(p, u);
    }
  }

  lemma ReplaceStepParam(p: string, u: string, ph: Placeholder)
    requires u == [] || !Relevant(u[0])
    requires PlaceholderAt(p) == Some(ph)
    requires var L := |PlaceholderText(ph)|;
      ReplaceAll(Escape(p[L..]) + u) == Render(ToTokens(Segments(p[L..]))) + u
    ensures ReplaceAll(Escape(p) + u) == Render(ToTokens(Segments(p))) + u
  {
    var L := |PlaceholderText(ph)|;
    var r := Render(ToTokens(Segments(p[L..])));
    ScanStepParam(p, u, ph);
    ParamRender(ph, Segments(p[L..]));
    Assoc(CapGroup(ph.name), r, u);
  }

  lemma ParamRender(ph: Placeholder, segs: seq<Segment>)
    ensures Render(ToTokens([Param(ph)] + segs)) == CapGroup(ph.name) + Render(ToTokens(segs))
  {
    assert ([Param(ph)] + segs)[1..] == segs;
    RenderCons(Cap(ph.name), ToTokens(segs));
  }

  lemma ReplaceStepText(p: string, u: string)
    requires p != [] && (u == [] || !Relevant(u[0]))
    requires PlaceholderAt(p) == None
    requires ReplaceAll(Escape(p[1..]) + u) == Render(ToTokens(Segments(p[1..]))) + u
    ensures ReplaceAll(Escape(p) + u) == Render(ToTokens(Segments(p))) + u
  {
    ScanStepText(p, u);
    SegmentsNone(p);
    ConsTextRender(p[0], Segments(p[1..]));
    Assoc(Escape([p[0]]), Render(ToTokens(Segments(p[1..]))), u);
  }

  lemma SegmentsNone(p: string)
    requires p != [] && PlaceholderAt(p) == None
    ensures Segments(p) == ConsText(p[0], Segments(p[1..]))
  {
  }

  /** Collecting over the escaped pattern finds exactly the structural placeholders' groups. */
  lemma {:induction false} CollectEscaped(p: string, u: string)
    requires '{' !in u && (u == [] || !Relevant(u[0]))
    ensures MatchAllGroup1(Escape(p) + u) == Group1s(Segments(p))
    decreases |p|
  {
    if p == [] {
      assert Escape(p) + u == u;
      ScanPlain(u);
    } else {
      match PlaceholderAt(p)
      case Some(ph) =>
        var L := |PlaceholderText(ph)|;
        ScanStepParam(p, u, ph);
        CollectEscaped(p[L..], u);
        ParamFacts(ph, Segments(p[L..]));
      case None =>
        ScanStepText(p, u);
        CollectEscaped(p[1..], u);
        ConsTextFacts(p[0], Segments(p[1..]));
    }
  }

  lemma GroupEntryOf(ph: Placeholder)
    requires IsName(ph.name)
    ensures GroupEntry(Group1(ph)) == (ph.name, Kind(ph))
  {
    assert ':' !in ph.name by {
      forall j | 0 <= j < |ph.name| ensures ph.name[j] != ':' {
        assert IsNameChar(ph.name[j]);
      }
    }
    if ph.typed {
      ExplodeAt(ph.name, "int", "::");
      assert ph.name + "::int" == ph.name + "::" + "int";
      ExplodeWhole("int", "::");
    } else {
      assert Group1(ph) == ph.name;
      ExplodeWhole(ph.name, "::");
    }
  }

  /** Every placeholder segment has a name made of name characters. */
  ghost predicate NamesValid(segs: seq<Segment>) {
    forall i :: 0 <= i < |segs| && segs[i].Param? ==> IsName(segs[i].ph.name)
  }

  lemma {:induction false} SegmentsNamesValid(p: string)
    ensures NamesValid(Segments(p))
    decreases |p|
  {
    if p != [] {
      match PlaceholderAt(p)
      case Some(ph) =>
        PlaceholderSound(p);
        SegmentsNamesValid(p[|PlaceholderText(ph)|..]);
        NamesValidCons(Param(ph), Segments(p[|PlaceholderText(ph)|..]));
      case None =>
        SegmentsNamesValid(p[1..]);
        NamesValidConsText(p[0], Segments(p[1..]));
    }
  }

  lemma NamesValidCons(seg: Segment, rest: seq<Segment>)
    requires NamesValid(rest) && (seg.Param? ==> IsName(seg.ph.name))
    ensures NamesValid([seg] + rest)
  {
    var r := [seg] + rest;
    forall i | 0 <= i < |r| && r[i].Param? ensures IsName(r[i].ph.name) {
      if i > 0 {
        assert r[i] == rest[i - 1];
      }
    }
  }

  lemma NamesValidConsText(c: char, rest: seq<Segment>)
    requires NamesValid(rest)
    ensures NamesValid(ConsText(c, rest))
  {
    if rest != [] && rest[0].Text? {
      NamesValidCons(Text([c] + rest[0].text), rest[1..]) by {
        forall i | 0 <= i < |rest[1..]| && rest[1..][i].Param? ensures IsName(rest[1..][i].ph.name) {
          assert rest[1..][i] == rest[i + 1];
        }
      }
    } else {
      NamesValidCons(Text([c]), rest);
    }
  }

  lemma {:induction false} GroupEntriesOfSegments(segs: seq<Segment>)
    requires NamesValid(segs)
    ensures GroupEntries(Group1s(segs)) == ParamEntries(segs)
    decreases |segs|
  {
    if segs != [] {
      var rest := segs[1..];
      assert NamesValid(rest) by {
        assert forall i :: 0 <= i < |rest| ==> rest[i] == segs[i + 1];
      }
      GroupEntriesOfSegments(rest);
      if segs[0].Param? {
        GroupEntryOf(segs[0].ph);
        assert Group1s(segs) == [Group1(segs[0].ph)] + Group1s(rest);
        assert GroupEntries([Group1(segs[0].ph)] + Group1s(rest)) == [GroupEntry(Group1(segs[0].ph))] + GroupEntries(Group1s(rest));
      }
    }
  }

  /**
   * `preg_replace` on the escaped pattern gives the regex of the token
   * form: every recognised placeholder becomes `(?<name>.*)` and nothing
   * else changes.
   */
  lemma ReplaceAllCompiles(p: string)
    ensures ReplaceAll(EscapedPattern(p)) == CompiledRegex(p)
  {
    ReplaceEscaped(p, "$/");
    ScanSlash(Escape(p) + "$/");
    assert EscapedPattern(p) == "/" + (Escape(p) + "$/");
    var r := Render(ToTokens(Segments(p)));
    assert "/" + (r + "$/") == "/" + r + "$/";
  }

  /** The opening delimiter passes through both scans unchanged. */
  lemma ScanSlash(e: string)
    ensures ReplaceAll("/" + e) == "/" + ReplaceAll(e)
    ensures MatchAllGroup1("/" + e) == MatchAllGroup1(e)
  {
    var s := "/" + e;
    PlaceholderAtNotBrace(s);
    assert s[1..] == e;
  }

  /**
   * The loop over the groups `preg_match_all` collects from the escaped
   * pattern assigns exactly the structural placeholders' names and
   * datatypes, in order.
   */
  lemma GroupEntriesAreParamEntries(p: string)
    ensures GroupEntries(MatchAllGroup1(EscapedPattern(p))) == ParamEntries(Segments(p))
  {
    CollectEscaped(p, "$/");
    ScanSlash(Escape(p) + "$/");
    assert EscapedPattern(p) == "/" + (Escape(p) + "$/");
    SegmentsNamesValid(p);
    GroupEntriesOfSegments(Segments(p));
  }

  // ---------------------------------------------------------------------
  // What the structural reading promises

  /** Reading a pattern into segments loses nothing. */
  lemma {:induction false} UnparseSegments(p: string)
    ensures Unparse(Segments(p)) == p
    decreases |p|
  {
    if p != [] {
      match PlaceholderAt(p)
      case Some(ph) =>
        var L := |PlaceholderText(ph)|;
        UnparseSegments(p[L..]);
        ParamFacts(ph, Segments(p[L..]));
        PlaceholderSound(p);
        assert p == p[..L] + p[L..];
      case None =>
        UnparseSegments(p[1..]);
        ConsTextFacts(p[0], Segments(p[1..]));
        assert p == [p[0]] + p[1..];
    }
  }

  lemma {:induction false} ParamEntriesKinds(segs: seq<Segment>)
    ensures forall i :: 0 <= i < |ParamEntries(segs)| ==> ParamEntries(segs)[i].1 in {"int", "string"}
    ensures Keys(ParamEntries(segs)) == ParamNames(segs)
    decreases |segs|
  {
    if segs != [] {
      ParamEntriesKinds(segs[1..]);
    }
  }

  /**
   * The parameter table holds every placeholder name once, in order of
   * first occurrence, and each datatype recorded is 'int' or 'string'.
   */
  lemma ParamTableShape(p: string)
    ensures Keys(ParamTable(p)) == Dedup(ParamNames(Segments(p)))
    ensures forall i :: 0 <= i < |ParamTable(p)| ==> ParamTable(p)[i].1 in {"int", "string"}
  {
    ParamTableKeys(p);
    ParamTableKinds(p);
  }

  lemma ParamTableKeys(p: string)
    ensures Keys(ParamTable(p)) == Dedup(ParamNames(Segments(p)))
  {
    var es := ParamEntries(Segments(p));
    var empty: Dict<string> := [];
    PutAllKeys(empty, es);
    assert Keys(empty) + Keys(es) == Keys(es);
    ParamEntriesKinds(Segments(p));
  }

  lemma ParamTableKinds(p: string)
    ensures forall i :: 0 <= i < |ParamTable(p)| ==> ParamTable(p)[i].1 in {"int", "string"}
  {
    var empty: Dict<string> := [];
    ParamEntriesKinds(Segments(p));
    PutAllValues(empty, ParamEntries(Segments(p)), {"int", "string"});
  }

  /** A name's datatype is the one its last placeholder declares: 'int' with `::int`, 'string' without. */
  lemma ParamTableGet(p: string, name: string)
    ensures Get(ParamTable(p), name) ==
      if name in ParamNames(Segments(p)) then Get(Reverse(ParamEntries(Segments(p))), name) else None
    ensures Get(ParamTable(p), name).Some? <==> name in ParamNames(Segments(p))
  {
    var es := ParamEntries(Segments(p));
    var empty: Dict<string> := [];
    PutAllGet(empty, es, name);
    ParamEntriesKinds(Segments(p));
    PutAllKeys(empty, es);
    assert Keys(empty) + Keys(es) == Keys(es);
    DedupElements(Keys(es));
  }

  lemma {:induction false} PutAllValues<V>(d: Dict<V>, s: seq<(string, V)>, vs: set<V>)
    requires forall i :: 0 <= i < |d| ==> d[i].1 in vs
    requires forall i :: 0 <= i < |s| ==> s[i].1 in vs
    ensures forall i :: 0 <= i < |PutAll(d, s)| ==> PutAll(d, s)[i].1 in vs
  {
    if s != [] {
      PutAllValues(d, s[..|s| - 1], vs);
      PutValues(PutAll(d, s[..|s| - 1]), s[|s| - 1].0, s[|s| - 1].1, vs);
    }
  }

  lemma {:induction false} PutValues<V>(d: Dict<V>, k: string, v: V, vs: set<V>)
    requires v in vs && forall i :: 0 <= i < |d| ==> d[i].1 in vs
    ensures forall i :: 0 <= i < |Put(d, k, v)| ==> Put(d, k, v)[i].1 in vs
  {
    if d != [] && d[0].0 != k {
      PutValues(d[1..], k, v, vs);
      var r := Put(d, k, v);
      assert forall i :: 1 <= i < |r| ==> r[i] == Put(d[1..], k, v)[i - 1];
    }
  }

  /** A pattern without a brace has no placeholders: the table is empty and the regex is the escaped pattern. */
  lemma NoPlaceholders(p: string)
    requires '{' !in p
    ensures ParamTable(p) == []
    ensures CompiledRegex(p) == EscapedPattern(p)
    ensures MatchAllGroup1(EscapedPattern(p)) == []
  {
    ReplaceAllCompiles(p);
    GroupEntriesAreParamEntries(p);
    var s := EscapedPattern(p);
    assert '{' !in s by {
      EscapeNoBrace(p);
      assert s == "/" + Escape(p) + "$/";
    }
    ScanPlain(s);
    assert |ParamEntries(Segments(p))| == 0;
  }

  lemma {:induction false} EscapeNoBrace(p: string)
    requires '{' !in p
    ensures '{' !in Escape(p)
    decreases |p|
  {
    if p != [] {
      assert p == [p[0]] + p[1..];
      EscapeCons(p[0], p[1..]);
      EscapeNoBrace(p[1..]);
    }
  }

  /** The compiled regex is the escaped pattern's shape: delimiters and the end anchor around the rendered tokens. */
  lemma CompiledRegexShape(p: string)
    ensures var r := CompiledRegex(p); |r| >= 3 && r[0] == '/' && r[|r| - 2..] == "$/"
  {
  }

  // ---------------------------------------------------------------------
  // The patterns whose regex stays inside the modelled family

  predicate SegmentOk(seg: Segment) {
    match seg
    case Text(t) => AllLiteral(t)
    case Param(ph) => 0 < |ph.name| <= MaxNameLength
  }

  /**
   * Literal text without regex metacharacters other than '/', and placeholder
   * names that are nonempty, at most 32 characters long and pairwise distinct.
   */
  predicate Supported(p: string) {
    var segs := Segments(p);
    (forall i :: 0 <= i < |segs| ==> SegmentOk(segs[i])) && Distinct(ParamNames(segs))
  }

  /** Segments never hold an empty text, and never two texts side by side. */
  ghost predicate Merged(segs: seq<Segment>) {
    && (forall i :: 0 <= i < |segs| && segs[i].Text? ==> |segs[i].text| > 0)
    && (forall i :: 0 < i < |segs| ==> !(segs[i - 1].Text? && segs[i].Text?))
  }

  lemma {:induction false} SegmentsMerged(p: string)
    ensures Merged(Segments(p))
    decreases |p|
  {
    if p != [] {
      match PlaceholderAt(p)
      case Some(ph) =>
        SegmentsMerged(p[|PlaceholderText(ph)|..]);
        MergedCons(Param(ph), Segments(p[|PlaceholderText(ph)|..]));
      case None =>
        SegmentsMerged(p[1..]);
        MergedConsText(p[0], Segments(p[1..]));
    }
  }

  lemma MergedCons(seg: Segment, rest: seq<Segment>)
    requires Merged(rest)
    requires seg.Text? ==> |seg.text| > 0 && (rest == [] || !rest[0].Text?)
    ensures Merged([seg] + rest)
  {
    var r := [seg] + rest;
    assert forall i :: 1 <= i < |r| ==> r[i] == rest[i - 1];
  }

  lemma MergedConsText(c: char, rest: seq<Segment>)
    requires Merged(rest)
    ensures Merged(ConsText(c, rest))
  {
    if rest != [] && rest[0].Text? {
      var tail := rest[1..];
      assert Merged(tail) by {
        assert forall i :: 0 <= i < |tail| ==> tail[i] == rest[i + 1];
      }
      if tail != [] {
        assert tail[0] == rest[1];
      }
      MergedCons(Text([c] + rest[0].text), tail);
    } else {
      MergedCons(Text([c]), rest);
    }
  }

  lemma {:induction false} CapNamesOfTokens(segs: seq<Segment>)
    ensures CapNames(ToTokens(segs)) == ParamNames(segs)
    decreases |segs|
  {
    if segs != [] {
      CapNamesOfTokens(segs[1..]);
      assert ToTokens(segs)[1..] == ToTokens(segs[1..]);
    }
  }

  /** A supported pattern compiles to a well-formed token list. */
  lemma SupportedWellFormed(p: string)
    requires Supported(p)
    ensures WellFormed(ToTokens(Segments(p)))
  {
    var segs := Segments(p);
    SegmentsMerged(p);
    SegmentsNamesValid(p);
    CapNamesOfTokens(segs);
    var ts := ToTokens(segs);
    forall i | 0 <= i < |ts| ensures TokenOk(ts[i]) {
      assert SegmentOk(segs[i]);
    }
  }

  /** The regex string of a supported pattern reads back as its token form. */
  lemma SupportedParses(p: string)
    requires Supported(p)
    ensures ParseRegex(CompiledRegex(p)) == Some(ToTokens(Segments(p)))
  {
    SupportedWellFormed(p);
    ParseCompile(ToTokens(Segments(p)));
  }

  // ---------------------------------------------------------------------
  // Text followed by one placeholder, as in `/items/{id::int}`

  /** The recogniser reads a placeholder's own text back as that placeholder. */
  lemma PlaceholderTextRecognised(ph: Placeholder)
    requires IsName(ph.name)
    ensures PlaceholderAt(PlaceholderText(ph)) == Some(ph)
  {
    if ph.typed {
      BraceRecognised(ph.name, "::int}");
      assert PlaceholderText(ph) == "{" + (ph.name + "::int}");
      assert ("::int}")[..1] != "}";
    } else {
      BraceRecognised(ph.name, "}");
      assert PlaceholderText(ph) == "{" + (ph.name + "}");
    }
  }

  /** After a brace, a name followed by a non-name character: the recogniser sees that whole name. */
  lemma BraceRecognised(name: string, suffix: string)
    requires IsName(name) && suffix != [] && !IsNameChar(suffix[0])
    ensures PlaceholderAt("{" + (name + suffix)) ==
        if StartsWith(suffix, "}") then Some(Placeholder(name, false))
        else if StartsWith(suffix, "::int}") then Some(Placeholder(name, true))
        else None
  {
    var x := name + suffix;
    var n := |name|;
    assert x[..n] == name && x[n..] == suffix;
    NameRunExact(x, n);
    PlaceholderAtBrace(x);
  }

  lemma ParamSegments(ph: Placeholder)
    requires IsName(ph.name)
    ensures Segments(PlaceholderText(ph)) == [Param(ph)]
  {
    PlaceholderTextRecognised(ph);
    var t := PlaceholderText(ph);
    assert t[|t|..] == [];
  }

  /** Text without a brace, then one placeholder: a text segment and a parameter segment. */
  lemma TextThenParam(a: string, ph: Placeholder)
    requires a != [] && '{' !in a && IsName(ph.name)
    ensures Segments(a + PlaceholderText(ph)) == [Text(a), Param(ph)]
  {
    ParamSegments(ph);
    SegmentsOfText(a, PlaceholderText(ph));
  }

  /** Such a pattern, say `/items/{id::int}`, declares one parameter with the placeholder's datatype. */
  lemma TextThenParamTable(a: string, ph: Placeholder)
    requires a != [] && '{' !in a && IsName(ph.name)
    ensures ParamTable(a + PlaceholderText(ph)) == [(ph.name, Kind(ph))]
  {
    TextThenParam(a, ph);
    var entry := (ph.name, Kind(ph));
    ParamFacts(ph, []);
    assert [Param(ph)] + [] == [Param(ph)];
    ConsParts(Text(a), [Param(ph)]);
    assert ParamEntries([Text(a), Param(ph)]) == [entry];
    var empty: Dict<string> := [];
    assert PutAll(empty, [entry]) == Put(empty, entry.0, entry.1);
  }

  /** Such a pattern compiles to the escaped text followed by one named group. */
  lemma TextThenParamRegex(a: string, ph: Placeholder)
    requires a != [] && '{' !in a && IsName(ph.name)
    ensures CompiledRegex(a + PlaceholderText(ph)) == "/" + Escape(a) + CapGroup(ph.name) + "$/"
  {
    TextThenParam(a, ph);
    ParamFacts(ph, []);
    assert [Param(ph)] + [] == [Param(ph)];
    TextParamRender(a, ph);
  }

  lemma TextParamRender(a: string, ph: Placeholder)
    ensures Render(ToTokens([Text(a), Param(ph)])) == Escape(a) + CapGroup(ph.name)
  {
    var ts := ToTokens([Text(a), Param(ph)]);
    assert ts == [Lit(a)] + [Cap(ph.name)];
    RenderCons(Lit(a), [Cap(ph.name)]);
    RenderCons(Cap(ph.name), []);
    assert [Cap(ph.name)] + [] == [Cap(ph.name)];
  }

  lemma PlaceholderAtNotBrace(s: string)
    requires s == [] || s[0] != '{'
    ensures PlaceholderAt(s) == None
  {
  }

  /** A literal prefix that holds no brace is read as text in front of the rest. */
  lemma {:induction false} SegmentsOfText(a: string, q: string)
    requires a != [] && '{' !in a && Segments(q) != [] && Segments(q)[0].Param?
    ensures Segments(a + q) == [Text(a)] + Segments(q)
    decreases |a|
  {
    var s := a + q;
    HeadTailAppend(a, q);
    TextLead(s);
    if |a| == 1 {
      assert a[1..] == [] && [a[0]] == a;
      ConsTextParamHead(a[0], Segments(q));
    } else {
      InTail('{', a);
      SegmentsOfText(a[1..], q);
      TextHeadStep(a, Segments(s), Segments(s[1..]), Segments(q));
    }
  }

  /** One step of reading a brace-free text: its first character joins the text segment after it. */
  lemma TextHeadStep(a: string, segs: seq<Segment>, rest: seq<Segment>, tail: seq<Segment>)
    requires |a| > 1
    requires segs == ConsText(a[0], rest) && rest == [Text(a[1..])] + tail
    ensures segs == [Text(a)] + tail
  {
    ConsTextTextHead(a[0], a[1..], tail);
    assert [a[0]] + a[1..] == a;
  }

  lemma TextLead(s: string)
    requires s != [] && s[0] != '{'
    ensures Segments(s) == ConsText(s[0], Segments(s[1..]))
  {
    PlaceholderAtNotBrace(s);
    SegmentsNone(s);
  }

  lemma ConsTextParamHead(c: char, segs: seq<Segment>)
    requires segs != [] && segs[0].Param?
    ensures ConsText(c, segs) == [Text([c])] + segs
  {
  }

  lemma ConsTextTextHead(c: char, t: string, segs: seq<Segment>)
    ensures ConsText(c, [Text(t)] + segs) == [Text([c] + t)] + segs
  {
    ConsParts(Text(t), segs);
  }
}
