/** What `StackUtils.clean` (src/lib/StackUtils.ts) computes, stated as
    functions over the lines of a trace, with the properties of the
    cleaning proved about them. The imperative `clean` loop itself is
    `StackUtils.StackUtils.Clean`, which is proved to compute `Cleaned`. */
module TraceCleaner {
  import opened Wrappers
  import opened JsString
  import opened Internals

  /** The argument of `clean`: absent, one block of text, or lines. */
  datatype StackInput = NoStack | Text(text: string) | Lines(lines: seq<string>)

  /** What `clean` needs from its instance: the internal patterns, the base
      directory, and the regular-expression engine that tests the patterns. */
  datatype CleanContext = CleanContext(internals: seq<Pattern>, cwd: string, test: RegexTest)

  /** A surviving line: whether it was a frame (`at`) line, and its cleaned text. */
  datatype Entry = Entry(isAt: bool, text: string)

  // ---------------------------------------------------------------------------
  // One line

  /** `/^\s*at /.test(s)` */
  predicate IsAtLine(s: string) {
    StartsWith(s[LeadingWhitespace(s)..], "at ")
  }

  /** The test above is what the regular expression means: some whitespace
      prefix is followed by `at `. */
  lemma IsAtLineMeaning(s: string)
    ensures IsAtLine(s) <==> exists n :: 0 <= n <= |s| && AllWhitespace(s[..n]) && StartsWith(s[n..], "at ")
  {
    var w := LeadingWhitespace(s);
    if exists n :: 0 <= n <= |s| && AllWhitespace(s[..n]) && StartsWith(s[n..], "at ") {
      var n :| 0 <= n <= |s| && AllWhitespace(s[..n]) && StartsWith(s[n..], "at ");
      if n < w {
        assert s[n] == s[..w][n];
        assert s[n..][..3][0] == s[n] == 'a';
      } else if w < n {
        assert s[w] == s[..n][w];
      }
    }
  }

  /** `s.replace(/^(\s+)at /, '$1')`: an `at ` after a non-empty indent is
      removed and the indent kept; any other line is unchanged. */
  function StripIndentedAt(s: string): (r: string)
    ensures forall n :: 0 < n <= |s| && AllWhitespace(s[..n]) && StartsWith(s[n..], "at ") ==>
              r == s[..n] + s[n + 3..]
    ensures (forall n :: 0 < n <= |s| && AllWhitespace(s[..n]) ==> !StartsWith(s[n..], "at ")) ==> r == s
  {
    var n := LeadingWhitespace(s);
    forall m | 0 < m <= |s| && AllWhitespace(s[..m]) && StartsWith(s[m..], "at ") ensures m == n {
      AtStart(s, m);
      if m < n {
        WhitespaceIn(s, n, m);
      } else if n < m {
        WhitespaceIn(s, m, n);
      }
    }
    if n > 0 && StartsWith(s[n..], "at ") then s[..n] + s[n + 3..] else s
  }

  lemma AtStart(s: string, m: nat)
    requires m <= |s| && StartsWith(s[m..], "at ")
    ensures m < |s| && s[m] == 'a'
  {
    assert s[m..][..3][0] == s[m];
  }

  lemma WhitespaceIn(s: string, n: nat, m: nat)
    requires m < n <= |s| && AllWhitespace(s[..n])
    ensures IsWhitespace(s[m])
  {
    assert s[..n][m] == s[m];
  }

  /** The text of a surviving line before the base directory is removed:
      trimmed and without its `at ` before the first non-frame line (a
      frame line that is `at` alone becomes empty), only right-trimmed with
      an indented `at ` taken out afterwards. */
  function LineText(st: string, outdent: bool): (t: string)
    ensures outdent ==> t == StripIndentedAt(TrimEnd(st))
    ensures !outdent && !IsAtLine(st) ==> t == Trim(st)
    ensures !outdent && IsAtLine(st) ==> Trim(st) == "at " + t || (t == "" && Trim(st) == "at")
  {
    if outdent then StripIndentedAt(TrimEnd(st))
    else if IsAtLine(st) then
      TrimmedAtLine(st);
      Drop(Trim(st), 3)
    else Trim(st)
  }

  /** A frame line trims to `at ` and the rest, or to `at` alone. */
  lemma TrimmedAtLine(st: string)
    requires IsAtLine(st)
    ensures Trim(st) == "at " + Drop(Trim(st), 3) || (Drop(Trim(st), 3) == "" && Trim(st) == "at")
  {
    var n := LeadingWhitespace(st);
    var u := st[n..];
    var r := TrimEnd(u);
    assert Trim(st) == r;
    assert u[..3] == "at ";
    assert u[0] == 'a' && u[1] == 't';
    assert |r| >= 2;
    assert r[..2] == u[..2] == "at";
    if |r| >= 3 {
      assert r[2] == u[2] == ' ';
      assert r == r[..3] + r[3..];
    }
  }

  /** The text of a surviving line: `LineText`, then the first occurrence of
      `cwd + "/"` anywhere in it is removed (`CwdRemovedFirst`, `CwdAbsent`). */
  function Reformat(st: string, outdent: bool, cwd: string): string {
    ReplaceFirst(LineText(st, outdent), cwd + "/", "")
  }

  /** `cwd + "/"` is removed where it first occurs, wherever that is, and
      even for an empty `cwd`, where it is the first `/`. */
  lemma CwdRemovedFirst(st: string, outdent: bool, cwd: string, k: nat)
    requires OccursAt(LineText(st, outdent), cwd + "/", k)
    requires forall j: nat :: j < k ==> !OccursAt(LineText(st, outdent), cwd + "/", j)
    ensures Reformat(st, outdent, cwd) == LineText(st, outdent)[..k] + LineText(st, outdent)[k + |cwd| + 1..]
  {
    RemoveFirst(LineText(st, outdent), cwd + "/", k);
  }

  /** Without an occurrence of `cwd + "/"` the text is kept. */
  lemma CwdAbsent(st: string, outdent: bool, cwd: string)
    requires forall k: nat :: !OccursAt(LineText(st, outdent), cwd + "/", k)
    ensures Reformat(st, outdent, cwd) == LineText(st, outdent)
  {
  }

  /** What one input line contributes, given the `outdent` flag: nothing when
      an internal pattern matches it (after `\` became `/`) or when its
      cleaned text is empty; otherwise whether it is a frame line and its
      cleaned text, both taken from the line with forward slashes. */
  function EntryOf(ctx: CleanContext, line: string, outdent: bool): (e: Option<Entry>)
    ensures e.Some? ==> e.value.text != ""
    ensures AnyMatches(ctx.internals, ctx.test, ForwardSlashes(line)) ==> e.None?
    ensures var st := ForwardSlashes(line);
            e.None? <==> AnyMatches(ctx.internals, ctx.test, st) || Reformat(st, outdent, ctx.cwd) == ""
    ensures var st := ForwardSlashes(line);
            e.Some? ==> e.value == Entry(IsAtLine(st), Reformat(st, outdent, ctx.cwd))
  {
    var st := ForwardSlashes(line);
    if AnyMatches(ctx.internals, ctx.test, st) then None
    else
      var text := Reformat(st, outdent, ctx.cwd);
      if text == "" then None else Some(Entry(IsAtLine(st), text))
  }

  /** Before the outdent, a frame line that trims to `at ` and a text gets
      that text with the first `cwd + "/"` cut out, and it is not empty. */
  lemma ReformatAtLine(st: string, cwd: string, t: string, k: nat)
    requires IsAtLine(st) && Trim(st) == "at " + t
    requires OccursAt(t, cwd + "/", k) && forall j: nat :: j < k ==> !OccursAt(t, cwd + "/", j)
    requires |t| > |cwd| + 1
    ensures Reformat(st, false, cwd) == t[..k] + t[k + |cwd| + 1..] != ""
  {
    AtLineText(st, t);
    CwdRemovedFirst(st, false, cwd, k);
    assert |t[..k] + t[k + |cwd| + 1..]| == |t| - |cwd| - 1;
  }

  /** Before the outdent, a frame line loses its `at `. */
  lemma AtLineText(st: string, t: string)
    requires IsAtLine(st) && Trim(st) == "at " + t
    ensures LineText(st, false) == t
  {
    var u := LineText(st, false);
    assert Trim(st) == "at " + u;
    assert u == ("at " + u)[3..] == ("at " + t)[3..] == t;
  }

  // ---------------------------------------------------------------------------
  // The surviving lines

  /** Some surviving line so far was not a frame line: this is `outdent`. */
  predicate HasNonAt(es: seq<Entry>) {
    exists k :: 0 <= k < |es| && !es[k].isAt
  }

  function OptionToSeq<T>(o: Option<T>): seq<T> {
    match o
    case Some(x) => [x]
    case None => []
  }

  /** What `clean` does to one line, as a function of the line and the
      `outdent` flag. */
  type LineCleaner = (string, bool) -> Option<Entry>

  function LineCleanerOf(ctx: CleanContext): LineCleaner {
    (line, outdent) => EntryOf(ctx, line, outdent)
  }

  /** The surviving lines of `lines`, in order, each cleaned with the
      `outdent` flag that the lines before it leave. */
  function EntriesOf(cleanLine: LineCleaner, lines: seq<string>): seq<Entry>
  {
    if lines == [] then []
    else
      var prev := EntriesOf(cleanLine, lines[..|lines| - 1]);
      prev + OptionToSeq(cleanLine(lines[|lines| - 1], HasNonAt(prev)))
  }

  function Entries(ctx: CleanContext, lines: seq<string>): seq<Entry>
  {
    EntriesOf(LineCleanerOf(ctx), lines)
  }

  /** Each input line gives at most one surviving line. */
  lemma {:induction false} EntriesAtMostLines(cleanLine: LineCleaner, lines: seq<string>)
    ensures |EntriesOf(cleanLine, lines)| <= |lines|
  {
    if lines != [] {
      EntriesAtMostLines(cleanLine, lines[..|lines| - 1]);
    }
  }

  /** No surviving line is empty. */
  lemma {:induction false} EntriesNonEmpty(ctx: CleanContext, lines: seq<string>)
    ensures forall k :: 0 <= k < |Entries(ctx, lines)| ==> Entries(ctx, lines)[k].text != ""
  {
    if lines != [] {
      var prev := Entries(ctx, lines[..|lines| - 1]);
      EntriesNonEmpty(ctx, lines[..|lines| - 1]);
      var e := EntryOf(ctx, lines[|lines| - 1], HasNonAt(prev));
      assert Entries(ctx, lines) == prev + OptionToSeq(e);
      assert e.Some? ==> e.value.text != "";
    }
  }

  // ---------------------------------------------------------------------------
  // Emitting with one line of lookahead

  /** The non-frame line waiting to be emitted (`lastNonAtLine`): the last
      surviving line, if it is not a frame line. */
  function Pending(es: seq<Entry>): (p: Option<string>)
    ensures p.Some? <==> |es| > 0 && !es[|es| - 1].isAt
  {
    if |es| > 0 && !es[|es| - 1].isAt then Some(es[|es| - 1].text) else None
  }

  /** The emitted lines: each frame line, preceded by the non-frame line
      right before it if there is one. */
  function Emit(es: seq<Entry>): (out: seq<string>)
    ensures (forall k :: 0 <= k < |es| ==> es[k].text != "") ==> forall k :: 0 <= k < |out| ==> out[k] != ""
  {
    if es == [] then []
    else
      var prev := es[..|es| - 1];
      var e := es[|es| - 1];
      Emit(prev) + if e.isAt then OptionToSeq(Pending(prev)) + [e.text] else []
  }

  /** What surviving line `j` puts in the output, looking only at its
      neighbour: a frame line brings the non-frame line right before it. */
  function Chunk(es: seq<Entry>, j: nat): seq<string>
    requires j < |es|
  {
    if !es[j].isAt then []
    else if j > 0 && !es[j - 1].isAt then [es[j - 1].text, es[j].text]
    else [es[j].text]
  }

  function Flatten(chunks: seq<seq<string>>): seq<string> {
    if chunks == [] then [] else Flatten(chunks[..|chunks| - 1]) + chunks[|chunks| - 1]
  }

  function Chunks(es: seq<Entry>): (cs: seq<seq<string>>)
    ensures |cs| == |es|
    ensures forall j :: 0 <= j < |es| ==> cs[j] == Chunk(es, j)
  {
    seq(|es|, j requires 0 <= j < |es| => Chunk(es, j))
  }

  /** The lookahead emitter is the position-wise rule: the output is the
      chunks of all surviving lines, in order. So frame lines come out in
      input order, a non-frame line comes out only right before the frame
      line that follows it, a later non-frame line replaces an earlier one
      still waiting, and non-frame lines at the end never come out. */
  lemma {:induction false} EmitIsChunks(es: seq<Entry>)
    ensures Emit(es) == Flatten(Chunks(es))
  {
    if es != [] {
      var prev := es[..|es| - 1];
      EmitIsChunks(prev);
      assert Chunks(es)[..|es| - 1] == Chunks(prev);
      assert Chunks(es)[|es| - 1] == Chunk(es, |es| - 1);
    }
  }

  /** Non-frame lines at the end never come out. */
  lemma TrailingNonAtDropped(es: seq<Entry>, e: Entry)
    requires !e.isAt
    ensures Emit(es + [e]) == Emit(es)
  {
    assert (es + [e])[..|es|] == es;
  }

  /** A later non-frame line replaces one still waiting: of two non-frame
      lines before a frame line, only the second comes out. */
  lemma PendingOverwritten(es: seq<Entry>, n1: Entry, n2: Entry, a: Entry)
    requires !n1.isAt && !n2.isAt && a.isAt
    ensures Emit(es + [n1, n2, a]) == Emit(es) + [n2.text, a.text]
  {
    var s := es + [n1, n2, a];
    assert s[..|s| - 1] == es + [n1, n2];
    assert (es + [n1, n2])[..|es| + 1] == es + [n1];
    assert (es + [n1])[..|es|] == es;
    assert Emit(es + [n1]) == Emit(es);
    assert Emit(es + [n1, n2]) == Emit(es);
    assert Pending(es + [n1, n2]) == Some(n2.text);
  }

  /** How one more input line changes the surviving lines. */
  lemma EntriesStep(cleanLine: LineCleaner, lines: seq<string>, i: nat)
    requires i < |lines|
    ensures EntriesOf(cleanLine, lines[..i + 1])
            == EntriesOf(cleanLine, lines[..i]) + OptionToSeq(cleanLine(lines[i], HasNonAt(EntriesOf(cleanLine, lines[..i]))))
  {
    assert lines[..i + 1][..i] == lines[..i];
  }

  /** How one more surviving line changes the `outdent` flag, the waiting
      line and the output. */
  lemma EmitStep(es: seq<Entry>, e: Entry)
    ensures HasNonAt(es + [e]) <==> HasNonAt(es) || !e.isAt
    ensures Pending(es + [e]) == if e.isAt then None else Some(e.text)
    ensures Emit(es + [e]) == Emit(es) + if e.isAt then OptionToSeq(Pending(es)) + [e.text] else []
  {
    var next := es + [e];
    assert next[..|next| - 1] == es;
    if HasNonAt(next) && e.isAt {
      var k :| 0 <= k < |next| && !next[k].isAt;
      assert next[k] == es[k];
    }
    if HasNonAt(es) {
      var k :| 0 <= k < |es| && !es[k].isAt;
      assert next[k] == es[k];
    }
    if !e.isAt {
      assert !next[|es|].isAt;
    }
  }

  // ---------------------------------------------------------------------------
  // Internal lines and the outdent flag

  /** The lines no internal pattern matches, in order (`RemoveInternalAppend`). */
  function RemoveInternal(ctx: CleanContext, lines: seq<string>): (r: seq<string>)
    ensures |r| <= |lines|
    ensures forall k :: 0 <= k < |r| ==> !AnyMatches(ctx.internals, ctx.test, ForwardSlashes(r[k]))
    ensures (forall k :: 0 <= k < |lines| ==> !AnyMatches(ctx.internals, ctx.test, ForwardSlashes(lines[k]))) ==> r == lines
    ensures |lines| == 1 ==> r == if AnyMatches(ctx.internals, ctx.test, ForwardSlashes(lines[0])) then [] else lines
  {
    if lines == [] then []
    else
      var prev := RemoveInternal(ctx, lines[..|lines| - 1]);
      var l := lines[|lines| - 1];
      if AnyMatches(ctx.internals, ctx.test, ForwardSlashes(l)) then prev else prev + [l]
  }

  /** Removing the internal lines of a concatenation removes those of each
      part: every other line is kept, and the kept lines stay in order. */
  lemma {:induction false} RemoveInternalAppend(ctx: CleanContext, a: seq<string>, b: seq<string>)
    ensures RemoveInternal(ctx, a + b) == RemoveInternal(ctx, a) + RemoveInternal(ctx, b)
    decreases |b|
  {
    if b == [] {
      assert a + b == a;
    } else {
      RemoveInternalAppend(ctx, a, b[..|b| - 1]);
      assert (a + b)[..|a + b| - 1] == a + b[..|b| - 1];
    }
  }

  /** Lines that an internal pattern matches contribute nothing: the
      surviving lines (and so the output and the `outdent` flag) are those
      of the input with every internal line deleted. */
  lemma {:induction false} InternalLinesInvisible(ctx: CleanContext, lines: seq<string>)
    ensures Entries(ctx, lines) == Entries(ctx, RemoveInternal(ctx, lines))
  {
    if lines != [] {
      var init := lines[..|lines| - 1];
      var l := lines[|lines| - 1];
      InternalLinesInvisible(ctx, init);
      if !AnyMatches(ctx.internals, ctx.test, ForwardSlashes(l)) {
        var r := RemoveInternal(ctx, init) + [l];
        assert r[..|r| - 1] == RemoveInternal(ctx, init);
      }
    }
  }

  /** The surviving lines of a prefix are a prefix of the surviving lines. */
  lemma {:induction false} EntriesPrefix(ctx: CleanContext, lines: seq<string>, k: nat)
    requires k <= |lines|
    ensures Entries(ctx, lines[..k]) <= Entries(ctx, lines)
    decreases |lines|
  {
    if k < |lines| {
      EntriesPrefix(ctx, lines[..|lines| - 1], k);
      assert lines[..|lines| - 1][..k] == lines[..k];
    } else {
      assert lines[..k] == lines;
    }
  }

  /** Once a non-frame line has survived, `outdent` stays set for the rest
      of the trace. */
  lemma OutdentPersists(ctx: CleanContext, lines: seq<string>, k: nat)
    requires k <= |lines|
    requires HasNonAt(Entries(ctx, lines[..k]))
    ensures HasNonAt(Entries(ctx, lines))
  {
    EntriesPrefix(ctx, lines, k);
    var j :| 0 <= j < |Entries(ctx, lines[..k])| && !Entries(ctx, lines[..k])[j].isAt;
    assert Entries(ctx, lines)[j] == Entries(ctx, lines[..k])[j];
  }

  // ---------------------------------------------------------------------------
  // The whole of `clean`

  /** The header skip: the first line is dropped when it is not a frame
      line and the second one is; nothing else is dropped. */
  function SkipHeader(lines: seq<string>): (r: seq<string>)
    ensures |lines| - 1 <= |r| <= |lines|
    ensures r == lines[|lines| - |r|..]
    ensures |r| < |lines| <==> |lines| >= 2 && !IsAtLine(lines[0]) && IsAtLine(lines[1])
  {
    if |lines| >= 2 && !IsAtLine(lines[0]) && IsAtLine(lines[1]) then lines[1..] else lines
  }

  /** The emitted lines of an input that is present. */
  function CleanedLines(ctx: CleanContext, lines: seq<string>): seq<string> {
    Emit(Entries(ctx, SkipHeader(lines)))
  }

  /** `result.map(line => indent + line + "\n").join("")` */
  function Render(lines: seq<string>, indent: string): (r: string)
    ensures r == "" <==> lines == []
    ensures r != "" ==> r[|r| - 1] == '\n'
  {
    if lines == [] then [] else indent + lines[0] + "\n" + Render(lines[1..], indent)
  }

  function Indented(lines: seq<string>, indent: string): (r: seq<string>)
    ensures |r| == |lines|
    ensures forall k :: 0 <= k < |lines| ==> r[k] == indent + lines[k]
  {
    seq(|lines|, k requires 0 <= k < |lines| => indent + lines[k])
  }

  predicate NoNewline(s: string) {
    '\n' !in s
  }

  /** The rendering is one line per emitted line: cut at the newlines, it
      gives the indented lines back, followed by the empty text after the
      last newline. */
  lemma {:induction false} RenderLines(lines: seq<string>, indent: string)
    requires NoNewline(indent)
    requires forall k :: 0 <= k < |lines| ==> NoNewline(lines[k])
    ensures Split(Render(lines, indent), '\n') == Indented(lines, indent) + [[]]
  {
    if lines != [] {
      RenderLines(lines[1..], indent);
      SplitAtFirst(indent + lines[0], Render(lines[1..], indent), '\n');
      assert Indented(lines, indent) == [indent + lines[0]] + Indented(lines[1..], indent);
    }
  }

  /** `clean(stack, indentSpaces)`: `undefined` for an absent or empty
      string; otherwise every emitted line, indented and newline-terminated.
      An array is always present, so the empty array gives `""`. */
  function Cleaned(ctx: CleanContext, stack: StackInput, indentSpaces: nat): (r: Option<string>)
    ensures r.None? <==> stack.NoStack? || stack == Text("")
    ensures stack == Lines([]) ==> r == Some("")
  {
    match stack
    case NoStack => None
    case Text(s) =>
      if s == "" then None
      else Some(Render(CleanedLines(ctx, Split(s, '\n')), Spaces(indentSpaces)))
    case Lines(ls) => Some(Render(CleanedLines(ctx, ls), Spaces(indentSpaces)))
  }
}
