/** The internals registry of the stack utilities (src/lib/StackUtils.ts):
    the built-in patterns that recognise runtime frames, the escaping of
    package names for literal matching, and the single pattern that
    recognises frames inside ignored packages.

    A compiled regular expression is kept as its source text; evaluating it
    is the regular-expression engine's business, which the model takes as a
    parameter (`RegexTest`, standing for `RegExp.prototype.test`). */
module Internals {
  import opened JsString

  /** A regular expression, by its source text (no flags are used). */
  datatype Pattern = Pattern(source: string)

  /** `pattern.test(line)`, supplied by the regular-expression engine. */
  type RegexTest = (Pattern, string) -> bool

  /** Some pattern in `patterns` matches `line`: `patterns.some(p => p.test(line))`. */
  predicate AnyMatches(patterns: seq<Pattern>, test: RegexTest, line: string) {
    exists i :: 0 <= i < |patterns| && test(patterns[i], line)
  }

  /** Frames of the runtime's bootstrap code: `node.js` / `bootstrap_node.js`,
      `internal/...` modules, the main-module runner and spawn-wrap shims. */
  const NodeBootstrapFrame := Pattern("\\s*at (bootstrap_)?node\\.js:\\d+:\\d+?$")
  const InternalModuleFrame := Pattern("\\(internal\\/[^:]+:\\d+:\\d+\\)$")
  const RunMainModuleFrame := Pattern("\\s*at internal[/]main[/]run_main_module\\.js:\\d+:\\d+$")
  const SpawnWrapFrame := Pattern("\\/\\.node-spawn-wrap-\\w+-\\w+\\/node:\\d+:\\d+\\)?$")

  /** `StackUtils.nodeInternals()`: the built-in list, in declaration order.
      The list derived from the (empty) table of native module names adds
      nothing in front of the four fixed patterns. */
  function NodeInternals(): (r: seq<Pattern>)
    ensures |r| == 4
    ensures r[0] == NodeBootstrapFrame && r[3] == SpawnWrapFrame
    ensures forall i, j :: 0 <= i < j < |r| ==> r[i] != r[j]
  {
    [NodeBootstrapFrame, InternalModuleFrame, RunMainModuleFrame, SpawnWrapFrame]
  }

  /** The characters `escapeStringRegexp` escapes: the regular-expression
      operators `| \ { } ( ) [ ] ^ $ + * ? . -`. */
  predicate IsRegexOperator(c: char) {
    c in "|\\{}()[]^$+*?.-"
  }

  /** `escapeStringRegexp`: every operator character gets a backslash in
      front of it; every other character is kept. */
  function EscapeStringRegexp(s: string): (r: string)
    ensures |r| >= |s|
    ensures (forall i :: 0 <= i < |s| ==> !IsRegexOperator(s[i])) ==> r == s
  {
    if s == [] then []
    else (if IsRegexOperator(s[0]) then ['\\', s[0]] else [s[0]]) + EscapeStringRegexp(s[1..])
  }

  /** A string in which every operator character is the second half of a
      backslash pair, so that the pattern matches its unescaped text literally. */
  predicate WellEscaped(r: string)
    decreases |r|
  {
    if r == [] then true
    else if r[0] == '\\' then |r| >= 2 && IsRegexOperator(r[1]) && WellEscaped(r[2..])
    else !IsRegexOperator(r[0]) && WellEscaped(r[1..])
  }

  /** The literal text a well-escaped pattern matches. */
  function Unescape(r: string): (s: string)
    requires WellEscaped(r)
    ensures |s| <= |r|
    decreases |r|
  {
    if r == [] then []
    else if r[0] == '\\' then [r[1]] + Unescape(r[2..])
    else [r[0]] + Unescape(r[1..])
  }

  /** Escaping yields a well-escaped pattern whose literal text is the input. */
  lemma {:induction false} EscapeRoundTrip(s: string)
    ensures WellEscaped(EscapeStringRegexp(s))
    ensures Unescape(EscapeStringRegexp(s)) == s
  {
    if s != [] {
      EscapeRoundTrip(s[1..]);
      var r := EscapeStringRegexp(s);
      if IsRegexOperator(s[0]) {
        assert r[2..] == EscapeStringRegexp(s[1..]);
      } else {
        assert r[1..] == EscapeStringRegexp(s[1..]);
      }
    }
  }

  /** Conversely, every well-escaped pattern is the escaping of its literal
      text, so escaping is a bijection onto the well-escaped strings. */
  lemma {:induction false} UnescapeRoundTrip(r: string)
    requires WellEscaped(r)
    ensures EscapeStringRegexp(Unescape(r)) == r
    decreases |r|
  {
    if r != [] {
      if r[0] == '\\' {
        UnescapeRoundTrip(r[2..]);
        assert r == r[..2] + r[2..];
      } else {
        UnescapeRoundTrip(r[1..]);
        assert r == [r[0]] + r[1..];
      }
    }
  }

  function EscapeAll(names: seq<string>): (r: seq<string>)
    ensures |r| == |names|
    ensures forall i :: 0 <= i < |names| ==> r[i] == EscapeStringRegexp(names[i])
  {
    seq(|names|, i requires 0 <= i < |names| => EscapeStringRegexp(names[i]))
  }

  lemma EscapeAllWellEscaped(names: seq<string>)
    ensures forall i :: 0 <= i < |names| ==> WellEscaped(EscapeAll(names)[i])
  {
    forall i | 0 <= i < |names| ensures WellEscaped(EscapeAll(names)[i]) {
      EscapeRoundTrip(names[i]);
    }
  }

  const IgnoredPackagesPrefix := "[/\\\\]node_modules[/\\\\](?:"
  const IgnoredPackagesSuffix := ")[/\\\\][^:]+:\\d+:\\d+"

  /** `ignoredPackagesRegExp`: no pattern at all for an empty list; otherwise
      one pattern `[/\\]node_modules[/\\](?:p1|...|pn)[/\\][^:]+:\d+:\d+`
      whose alternation lists the escaped package names in order. */
  function IgnoredPackagesRegExp(packages: seq<string>): (r: seq<Pattern>)
    ensures |packages| == 0 <==> r == []
    ensures |packages| > 0 ==> |r| == 1
    ensures |packages| > 0 ==>
              exists alt :: r[0].source == IgnoredPackagesPrefix + alt + IgnoredPackagesSuffix
                            && Alternatives(alt) == EscapeAll(packages)
  {
    if |packages| == 0 then []
    else
      var alt := Join(EscapeAll(packages), "|");
      EscapeAllWellEscaped(packages);
      JoinedAlternatives(EscapeAll(packages));
      [Pattern(IgnoredPackagesPrefix + alt + IgnoredPackagesSuffix)]
  }

  /** The branches of a regular-expression alternation: the text split at
      every `|` that is not the second half of a backslash pair. */
  function Alternatives(s: string): (r: seq<string>)
    ensures |r| >= 1
    decreases |s|
  {
    if s == [] then [[]]
    else if s[0] == '\\' && |s| >= 2 then
      var rest := Alternatives(s[2..]);
      [s[..2] + rest[0]] + rest[1..]
    else if s[0] == '|' then [[]] + Alternatives(s[1..])
    else
      var rest := Alternatives(s[1..]);
      [[s[0]] + rest[0]] + rest[1..]
  }

  /** A well-escaped branch has no unescaped `|`: it is one branch. */
  lemma {:induction false} AlternativesWhole(e: string)
    requires WellEscaped(e)
    ensures Alternatives(e) == [e]
    decreases |e|
  {
    if e != [] && e[0] == '\\' {
      AlternativesWhole(e[2..]);
      assert e == e[..2] + e[2..];
    } else if e != [] {
      AlternativesWhole(e[1..]);
      assert e == [e[0]] + e[1..];
    }
  }

  /** An escaped character in front keeps the first branch together. */
  lemma AlternativesEscapedHead(e: string, t: string)
    requires |e| >= 2 && e[0] == '\\'
    requires Alternatives(e[2..] + "|" + t) == [e[2..]] + Alternatives(t)
    ensures Alternatives(e + "|" + t) == [e] + Alternatives(t)
  {
    var s := e + "|" + t;
    assert s[2..] == e[2..] + "|" + t;
    var rest := Alternatives(s[2..]);
    assert s[..2] + rest[0] == e;
  }

  /** So does an ordinary character other than `|`. */
  lemma AlternativesPlainHead(e: string, t: string)
    requires |e| >= 1 && e[0] != '\\' && e[0] != '|'
    requires Alternatives(e[1..] + "|" + t) == [e[1..]] + Alternatives(t)
    ensures Alternatives(e + "|" + t) == [e] + Alternatives(t)
  {
    var s := e + "|" + t;
    assert s[1..] == e[1..] + "|" + t;
    var rest := Alternatives(s[1..]);
    assert [s[0]] + rest[0] == e;
  }

  /** A well-escaped branch followed by `|` is split off whole. */
  lemma {:induction false} AlternativesSplitBranch(e: string, t: string)
    requires WellEscaped(e)
    ensures Alternatives(e + "|" + t) == [e] + Alternatives(t)
    decreases |e|
  {
    if e == [] {
      var s := e + "|" + t;
      assert s == ['|'] + t;
      assert s[1..] == t;
    } else if e[0] == '\\' {
      AlternativesSplitBranch(e[2..], t);
      AlternativesEscapedHead(e, t);
    } else {
      AlternativesSplitBranch(e[1..], t);
      AlternativesPlainHead(e, t);
    }
  }

  /** Joining well-escaped branches with `|` and splitting the result at
      unescaped `|` gives the branches back. */
  lemma {:induction false} JoinedAlternatives(es: seq<string>)
    requires |es| >= 1
    requires forall i :: 0 <= i < |es| ==> WellEscaped(es[i])
    ensures Alternatives(Join(es, "|")) == es
  {
    if |es| == 1 {
      AlternativesWhole(es[0]);
    } else {
      JoinedAlternatives(es[1..]);
      AlternativesSplitBranch(es[0], Join(es[1..], "|"));
      assert es == [es[0]] + es[1..];
    }
  }

  /** Each ignored package is matched literally: the branches of the
      alternation are exactly the escaped names, and each one unescapes to
      the package name. */
  lemma IgnoredPackagesLiteral(packages: seq<string>, i: nat)
    requires i < |packages|
    ensures WellEscaped(EscapeAll(packages)[i])
    ensures Unescape(EscapeAll(packages)[i]) == packages[i]
  {
    EscapeRoundTrip(packages[i]);
  }
}
