/** What `StackUtils.parseLine` (src/lib/StackUtils.ts) makes of one stack
    frame once the frame regular expression has matched: the parenthesis
    repair, the `name [as alias]` split, path normalisation against the base
    directory and the optional fields.

    The frame regular expression itself is not evaluated here. Its result is
    the input: `None` when it does not match, otherwise the capture tuple,
    typed after the shape of the expression (the four eval captures come all
    together or not at all, the location is `file:line:column` or `native`,
    and line and column captures are non-empty digit strings). */
module FrameParser {
  import opened Wrappers
  import opened JsString

  /** Captures 3-6: `eval at <origin> (<file>:<line>:<column>), `. */
  datatype EvalCapture = EvalCapture(origin: string, file: string, line: DigitString, column: DigitString)

  /** Captures 7-9 (`file:line:column`) or capture 10 (`native`). */
  datatype LocationCapture =
    | FileLocation(file: string, line: DigitString, column: DigitString)
    | NativeLocation

  /** The capture tuple: capture 1 is `new`, capture 2 the function name
      (absent when the optional group did not take part), captures 3-6 the
      eval origin, 7-10 the location and capture 11 the closing parenthesis. */
  datatype FrameMatch = FrameMatch(
    isNew: bool,
    fname: Option<string>,
    eval: Option<EvalCapture>,
    location: LocationCapture,
    closeParen: bool)
  {
    /** `match[7]`: the file text, absent for a native frame. */
    function File(): Option<string> {
      if location.FileLocation? then Some(location.file) else None
    }
  }

  /** The parsed frame. An absent optional field is `None`; the two flags,
      which the source only ever sets to `true`, are `false` when absent. */
  datatype ParsedLine = ParsedLine(
    file: Option<string>,
    line: Option<nat>,
    column: Option<nat>,
    isConstructor: bool,
    evalOrigin: Option<string>,
    evalLine: Option<nat>,
    evalColumn: Option<nat>,
    evalFile: Option<string>,
    native: bool,
    functionName: Option<string>,
    methodName: Option<string>)

  const EmptyFrame := ParsedLine(None, None, None, false, None, None, None, None, false, None, None)

  // ---------------------------------------------------------------------------
  // Parenthesis balance of the file capture

  /** The change to the counter when the backward scan visits index `k`:
      a `)` opens one more level, a `(` right after a space closes one. */
  function Delta(file: string, k: nat): int
    requires 1 <= k < |file|
  {
    if file[k] == ')' then 1
    else if file[k] == '(' && file[k - 1] == ' ' then -1
    else 0
  }

  /** The counter after the scan has visited indices `|file|-1` down to `j`. */
  function Closes(file: string, j: nat): int
    requires 1 <= j <= |file|
    decreases |file| - j
  {
    if j == |file| then 0 else Delta(file, j) + Closes(file, j + 1)
  }

  /** Index `i` is where the backward scan stops: the counter first reaches -1 there. */
  predicate IsUnbalancedOpen(file: string, i: nat) {
    1 <= i < |file| && Closes(file, i) == -1
    && forall j :: i < j < |file| ==> Closes(file, j) >= 0
  }

  /** Where the scan stops is a `(` preceded by a space. */
  lemma UnbalancedOpenIsParen(file: string, i: nat)
    requires IsUnbalancedOpen(file, i)
    ensures file[i] == '(' && file[i - 1] == ' '
  {
    assert Closes(file, i) == Delta(file, i) + Closes(file, i + 1);
    if i + 1 < |file| {
      assert Closes(file, i + 1) >= 0;
    }
  }

  /** The scan stops in at most one place. */
  lemma UnbalancedOpenUnique(file: string, i: nat, k: nat)
    requires IsUnbalancedOpen(file, i) && IsUnbalancedOpen(file, k)
    ensures i == k
  {
  }

  /** Where the backward scan of `file` stops, if it does. */
  function UnbalancedOpen(file: string): (r: Option<nat>)
    ensures r.Some? ==> IsUnbalancedOpen(file, r.value)
    ensures r.None? ==> forall j :: 1 <= j < |file| ==> Closes(file, j) >= 0
  {
    if |file| <= 1 then None else ScanDown(file, |file| - 1)
  }

  function ScanDown(file: string, i: nat): (r: Option<nat>)
    requires 1 <= i < |file|
    requires forall j :: i < j < |file| ==> Closes(file, j) >= 0
    ensures r.Some? ==> IsUnbalancedOpen(file, r.value)
    ensures r.None? ==> forall j :: 1 <= j < |file| ==> Closes(file, j) >= 0
    decreases i
  {
    if Closes(file, i) == -1 then Some(i)
    else if i == 1 then None
    else ScanDown(file, i - 1)
  }

  /** `fname += " (" + before` on a possibly absent name: JavaScript turns an
      absent name into the text `undefined`. */
  function NameText(fname: Option<string>): string {
    match fname
    case Some(s) => s
    case None => "undefined"
  }

  /** The names after the repair: when the scan stops at `i`, the text
      before the space goes to the function name and the text after the
      `(` becomes the file; otherwise nothing changes. */
  function RepairParens(fname: Option<string>, file: string): (r: (Option<string>, string))
    ensures UnbalancedOpen(file).None? ==> r == (fname, file)
    ensures UnbalancedOpen(file).Some? ==>
              var i := UnbalancedOpen(file).value;
              && file == file[..i - 1] + " (" + r.1
              && r.0 == Some(NameText(fname) + " (" + file[..i - 1])
  {
    match UnbalancedOpen(file)
    case None => (fname, file)
    case Some(i) =>
      UnbalancedOpenIsParen(file, i);
      assert file == file[..i - 1] + [file[i - 1], file[i]] + file[i + 1..];
      (Some(NameText(fname) + " (" + file[..i - 1]), file[i + 1..])
  }

  // ---------------------------------------------------------------------------
  // The `name [as alias]` split

  /** The characters `.` does not match in a regular expression. */
  predicate IsLineTerminator(c: char) {
    c == '\n' || c == '\r' || c == '\U{2028}' || c == '\U{2029}'
  }

  predicate HasLineTerminator(s: string) {
    exists i :: 0 <= i < |s| && IsLineTerminator(s[i])
  }

  /** `fname.match(/^(.*?) \[as (.*?)\]$/)`: the name ends in `]`, holds no
      line terminator, and the lazy first group stops at the first ` [as `. */
  function MethodMatch(fname: string): (r: Option<(string, string)>)
    ensures r.Some? ==> fname == r.value.0 + " [as " + r.value.1 + "]" && !HasLineTerminator(fname)
    ensures r.Some? ==> forall k: nat :: k < |r.value.0| ==> !OccursAt(fname, " [as ", k)
    ensures r.None? ==> || |fname| == 0 || fname[|fname| - 1] != ']' || HasLineTerminator(fname)
                        || IndexOf(fname[..|fname| - 1], " [as ").None?
  {
    if |fname| == 0 || fname[|fname| - 1] != ']' || HasLineTerminator(fname) then None
    else
      var body := fname[..|fname| - 1];
      match IndexOf(body, " [as ")
      case None => None
      case Some(k) =>
        assert fname == body[..k] + " [as " + body[k + 5..] + "]" by {
          assert body[k..k + 5] == " [as ";
          assert body == body[..k] + body[k..k + 5] + body[k + 5..];
          assert fname == body + "]";
        }
        forall j: nat | j < k ensures !OccursAt(fname, " [as ", j) {
          assert !OccursAt(body, " [as ", j);
          assert fname[j..j + 5] == body[j..j + 5];
        }
        Some((body[..k], body[k + 5..]))
  }

  // ---------------------------------------------------------------------------
  // Building the frame

  /** `setFile`: a non-empty file name gets forward slashes and loses the
      base directory when `cwd + "/"` is a prefix (and `cwd` is non-empty);
      an absent or empty name leaves the frame without a file. */
  function SetFile(res: ParsedLine, filename: Option<string>, cwd: string): (r: ParsedLine)
    ensures r == res.(file := r.file)
    ensures filename.None? || filename == Some("") ==> r.file == res.file
    ensures filename.Some? && filename.value != "" ==> r.file.Some?
    ensures r.file != res.file ==> '\\' !in r.file.value
    ensures filename.Some? && filename.value != "" && cwd != ""
            && StartsWith(ForwardSlashes(filename.value), cwd + "/") ==>
              ForwardSlashes(filename.value) == cwd + "/" + r.file.value
    ensures filename.Some? && filename.value != ""
            && (cwd == "" || !StartsWith(ForwardSlashes(filename.value), cwd + "/")) ==>
              r.file == Some(ForwardSlashes(filename.value))
  {
    match filename
    case Some(name) =>
      if name == "" then res
      else
        var f := ForwardSlashes(name);
        if cwd != "" && StartsWith(f, cwd + "/") then
          assert f == cwd + "/" + f[|cwd| + 1..];
          res.(file := Some(f[|cwd| + 1..]))
        else res.(file := Some(f))
    case None => res
  }

  /** The text of the function name after the repair and the alias split,
      with the alias (capture 2 of the alias expression), if any. */
  function SplitAlias(fname: Option<string>): (r: (Option<string>, Option<string>))
    ensures fname.None? || fname == Some("") ==> r == (fname, None)
    ensures r.1.Some? ==> fname.Some? && fname.value == NameText(r.0) + " [as " + r.1.value + "]"
    ensures fname.Some? && fname.value != "" && MethodMatch(fname.value).Some? ==>
              r == (Some(MethodMatch(fname.value).value.0), Some(MethodMatch(fname.value).value.1))
    ensures fname.Some? && MethodMatch(fname.value).None? ==> r == (fname, None)
  {
    match fname
    case None => (fname, None)
    case Some(f) =>
      if f == "" then (fname, None)
      else
        match MethodMatch(f)
        case None => (fname, None)
        case Some((base, alias)) => (Some(base), Some(alias))
  }

  /** The alias split undoes `base + " [as " + alias + "]"` whenever ` [as `
      does not start inside `base` and neither part holds a line
      terminator. */
  lemma AliasRoundTrip(base: string, alias: string)
    requires !HasLineTerminator(base) && !HasLineTerminator(alias)
    requires forall k: nat :: k < |base| ==> !OccursAt(base + " [as ", " [as ", k)
    ensures SplitAlias(Some(base + " [as " + alias + "]")) == (Some(base), Some(alias))
  {
    var f := base + " [as " + alias + "]";
    NoLineTerminator(base, alias);
    var body := f[..|f| - 1];
    assert body[|base|..|base| + 5] == " [as ";
    assert OccursAt(body, " [as ", |base|);
    var m := MethodMatch(f);
    assert m.Some?;
    var (b, a) := m.value;
    assert OccursAt(f, " [as ", |base|) by {
      assert f[|base|..|base| + 5] == " [as ";
    }
    if |b| < |base| {
      assert f[..|base| + 5] == base + " [as ";
      assert OccursAt(f, " [as ", |b|) by {
        assert f[|b|..|b| + 5] == " [as ";
      }
      assert f[|b|..|b| + 5] == (base + " [as ")[|b|..|b| + 5];
      assert OccursAt(base + " [as ", " [as ", |b|);
      assert false;
    }
    assert b == f[..|base|] == base;
    assert a == f[|base| + 5..|f| - 1] == alias;
  }

  lemma NoLineTerminator(base: string, alias: string)
    requires !HasLineTerminator(base) && !HasLineTerminator(alias)
    ensures !HasLineTerminator(base + " [as " + alias + "]")
  {
    var f := base + " [as " + alias + "]";
    forall i | 0 <= i < |f| ensures !IsLineTerminator(f[i]) {
      if i < |base| {
        assert f[i] == base[i];
      } else if |base| + 5 <= i < |f| - 1 {
        assert f[i] == alias[i - |base| - 5];
      }
    }
  }

  /** `parseLine(line)`, given the frame expression's result on `line` and
      the base directory `cwd`. */
  function ParseFrame(line: string, m: Option<FrameMatch>, cwd: string): (r: Option<ParsedLine>)
    ensures r.None? <==> line == "" || m.None?
  {
    if line == "" || m.None? then None
    else
      var c := m.value;
      var (fname, file) :=
        if c.closeParen && c.File().Some? && c.File().value != ""
        then var (n, f) := RepairParens(c.fname, c.File().value); (n, Some(f))
        else (c.fname, c.File());
      var (name, alias) := SplitAlias(fname);
      Some(Frame(c, name, alias, file, cwd))
  }

  /** The frame once the names and the file are settled: the line and
      column of a file location, the file as `setFile` leaves it, the
      constructor flag, the four eval fields when an eval origin was
      captured, `native` for a native location, a non-empty function name,
      and an alias that is non-empty and differs from it as the method
      name. */
  function Frame(c: FrameMatch, name: Option<string>, alias: Option<string>, file: Option<string>, cwd: string): (r: ParsedLine)
    ensures r.native <==> c.location.NativeLocation?
    ensures r.line.Some? <==> c.location.FileLocation?
    ensures r.column.Some? <==> c.location.FileLocation?
    ensures r.file.Some? ==> '\\' !in r.file.value
    ensures r.methodName.Some? ==> r.methodName != r.functionName
  {
    var hasEval := c.eval.Some? && c.eval.value.origin != "";
    ParsedLine(
      file := SetFile(EmptyFrame, file, cwd).file,
      line := if c.location.FileLocation? then Some(DecimalValue(c.location.line)) else None,
      column := if c.location.FileLocation? then Some(DecimalValue(c.location.column)) else None,
      isConstructor := c.isNew,
      evalOrigin := if hasEval then Some(c.eval.value.origin) else None,
      evalLine := if hasEval then Some(DecimalValue(c.eval.value.line)) else None,
      evalColumn := if hasEval then Some(DecimalValue(c.eval.value.column)) else None,
      evalFile := if hasEval then Some(ForwardSlashes(c.eval.value.file)) else None,
      native := c.location.NativeLocation?,
      functionName := if name.Some? && name.value != "" then name else None,
      methodName := if alias.Some? && alias.value != "" && name != alias then alias else None)
  }

  /** What a parsed frame holds: `native` exactly for a native location,
      which has no file, line or column; a line and a column exactly for a
      file location, with their decimal values; the constructor flag from
      `new`; all four eval fields exactly when an eval origin is present;
      forward slashes only in paths; and only non-empty names, the method
      name differing from the function name. */
  lemma ParseFrameFields(line: string, m: Option<FrameMatch>, cwd: string, r: ParsedLine)
    requires ParseFrame(line, m, cwd) == Some(r)
    ensures r.native <==> m.value.location.NativeLocation?
    ensures r.native ==> r.file.None? && r.line.None? && r.column.None?
    ensures r.line.Some? <==> m.value.location.FileLocation?
    ensures r.column.Some? <==> m.value.location.FileLocation?
    ensures m.value.location.FileLocation? ==>
              r.line == Some(DecimalValue(m.value.location.line))
              && r.column == Some(DecimalValue(m.value.location.column))
    ensures r.isConstructor == m.value.isNew
    ensures var hasEval := m.value.eval.Some? && m.value.eval.value.origin != "";
            && (r.evalOrigin.Some? <==> hasEval)
            && (r.evalLine.Some? <==> hasEval)
            && (r.evalColumn.Some? <==> hasEval)
            && (r.evalFile.Some? <==> hasEval)
    ensures r.evalFile.Some? ==> '\\' !in r.evalFile.value
    ensures r.file.Some? ==> '\\' !in r.file.value
    ensures r.functionName.Some? ==> r.functionName.value != ""
    ensures r.methodName.Some? ==> r.methodName.value != "" && r.functionName != r.methodName
  {
    var c := m.value;
    var (fname, file) :=
      if c.closeParen && c.File().Some? && c.File().value != ""
      then var (n, f) := RepairParens(c.fname, c.File().value); (n, Some(f))
      else (c.fname, c.File());
    var (name, alias) := SplitAlias(fname);
    assert r == Frame(c, name, alias, file, cwd);
  }

  /** `at foo (bar.js:10:5)`: the function name, the file, the line and the
      column, and no flag. */
  lemma SimpleFrame()
    ensures ParseFrame("at foo (bar.js:10:5)",
                       Some(FrameMatch(false, Some("foo"), None, FileLocation("bar.js", "10", "5"), true)), "")
         == Some(ParsedLine(Some("bar.js"), Some(10), Some(5), false, None, None, None, None, false, Some("foo"), None))
  {
    var f := "bar.js";
    assert forall j :: 1 <= j < |f| ==> Delta(f, j) == 0;
    assert UnbalancedOpen(f).None? by {
      assert Closes(f, 5) == 0 && Closes(f, 4) == 0 && Closes(f, 3) == 0 && Closes(f, 2) == 0 && Closes(f, 1) == 0;
    }
    assert ForwardSlashes(f) == f;
    assert DecimalValue("10") == 10 by { assert "10"[..1] == "1"; }
  }

  /** `at Object.<anonymous> (native)`: a native frame keeps its function
      name and has no file, line or column. */
  lemma NativeFrame()
    ensures ParseFrame("at Object.<anonymous> (native)",
                       Some(FrameMatch(false, Some("Object.<anonymous>"), None, NativeLocation, true)), "")
         == Some(ParsedLine(None, None, None, false, None, None, None, None, true, Some("Object.<anonymous>"), None))
  {
  }

  /** The case the repair is for: a file capture `asdf) [as foo] (xyz.js`
      gives the file `xyz.js`, and the name with its text appended then
      splits into the function `fn (asdf)` and the method `foo`. */
  lemma RepairedFrame()
    ensures ParseFrame("at fn (asdf) [as foo] (xyz.js:1:2)",
                       Some(FrameMatch(false, Some("fn"), None, FileLocation("asdf) [as foo] (xyz.js", "1", "2"), true)), "")
         == Some(ParsedLine(Some("xyz.js"), Some(1), Some(2), false, None, None, None, None, false,
                            Some("fn (asdf)"), Some("foo")))
  {
    var f := "asdf) [as foo] (xyz.js";
    var c := FrameMatch(false, Some("fn"), None, FileLocation(f, "1", "2"), true);
    assert c.closeParen && c.File() == Some(f) && f != "";
    RepairExample();
    AliasExample();
    RepairedFields(c);
  }

  /** The fields once the names and the file are settled. */
  lemma RepairedFields(c: FrameMatch)
    requires c == FrameMatch(false, Some("fn"), None, FileLocation("asdf) [as foo] (xyz.js", "1", "2"), true)
    ensures Frame(c, Some("fn (asdf)"), Some("foo"), Some("xyz.js"), "")
         == ParsedLine(Some("xyz.js"), Some(1), Some(2), false, None, None, None, None, false,
                       Some("fn (asdf)"), Some("foo"))
  {
    assert ForwardSlashes("xyz.js") == "xyz.js";
    assert SetFile(EmptyFrame, Some("xyz.js"), "").file == Some("xyz.js");
  }

  /** The scan stops at the `(` after `] `. */
  lemma RepairExample()
    ensures RepairParens(Some("fn"), "asdf) [as foo] (xyz.js") == (Some("fn (asdf) [as foo]"), "xyz.js")
  {
    var f := "asdf) [as foo] (xyz.js";
    assert Closes(f, 15) == -1 by {
      assert Closes(f, 21) == 0 && Closes(f, 20) == 0 && Closes(f, 19) == 0;
      assert Closes(f, 18) == 0 && Closes(f, 17) == 0 && Closes(f, 16) == 0;
    }
    assert IsUnbalancedOpen(f, 15);
    if UnbalancedOpen(f).Some? {
      UnbalancedOpenUnique(f, 15, UnbalancedOpen(f).value);
    }
    assert UnbalancedOpen(f) == Some(15);
    assert f[..14] == "asdf) [as foo]";
    assert "fn" + " (" + "asdf) [as foo]" == "fn (asdf) [as foo]";
    assert f[16..] == "xyz.js";
  }

  /** The repaired name ends in ` [as foo]`. */
  lemma AliasExample()
    ensures SplitAlias(Some("fn (asdf) [as foo]")) == (Some("fn (asdf)"), Some("foo"))
  {
    var n := "fn (asdf) [as foo]";
    var b := "fn (asdf) [as foo";
    assert n[..|n| - 1] == b;
    assert !HasLineTerminator(n) by {
      forall i | 0 <= i < |n| ensures !IsLineTerminator(n[i]) {
      }
    }
    assert OccursAt(b, " [as ", 9) by {
      assert b[9..14] == " [as ";
    }
    forall k: nat | k < 9 ensures !OccursAt(b, " [as ", k) {
      if k == 2 {
        assert b[k..k + 5][1] == b[3];
      } else {
        assert b[k..k + 5][0] == b[k];
      }
    }
    assert IndexOf(b, " [as ") == Some(9);
    assert b[..9] == "fn (asdf)" && b[14..] == "foo";
  }
}
