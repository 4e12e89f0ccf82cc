/** The `StackUtils` class (src/lib/StackUtils.ts): an instance fixes its
    internal patterns and its base directory at construction and never
    changes them; `clean` and `parseLine` only read them. */
module StackUtils {
  import opened Wrappers
  import opened JsString
  import opened Internals
  import opened FrameParser
  import opened TraceCleaner

  /** An option property: not a key of the object at all, a key whose value
      is `undefined`, or a given value. The constructor tells the first two
      apart (`'internals' in opts`, `'cwd' in opts`). */
  datatype Prop<T> = Missing | Undefined | Given(value: T)

  datatype StackUtilsOptions = StackUtilsOptions(
    internals: Prop<seq<Pattern>>,
    ignoredPackages: Prop<seq<string>>,
    cwd: Prop<string>)

  /** One surviving line through the body of `clean`'s loop: a frame line
      flushes the waiting non-frame line and then itself; a non-frame line
      sets `outdent` and waits. */
  method EmitEntry(ghost es: seq<Entry>, e: Entry, outdent: bool, lastNonAtLine: Option<string>, result: seq<string>)
    returns (outdent': bool, lastNonAtLine': Option<string>, result': seq<string>)
    requires outdent == HasNonAt(es) && lastNonAtLine == Pending(es) && result == Emit(es)
    ensures outdent' == HasNonAt(es + [e])
    ensures lastNonAtLine' == Pending(es + [e])
    ensures result' == Emit(es + [e])
  {
    EmitStep(es, e);
    outdent', lastNonAtLine', result' := outdent, lastNonAtLine, result;
    if e.isAt {
      if lastNonAtLine'.Some? {
        result' := result' + [lastNonAtLine'.value];
        lastNonAtLine' := None;
      }
      result' := result' + [e.text];
      assert result' == result + OptionToSeq(lastNonAtLine) + [e.text];
    } else {
      outdent' := true;
      lastNonAtLine' := Some(e.text);
    }
  }

  /** The loop of `clean` over the lines after the header, with
      `cleanLine` what the loop body does to one line: internal and empty
      lines are dropped, the rest reformatted, and each non-frame line is
      held back until a frame line follows it. */
  method EmitLines(cleanLine: LineCleaner, lines: seq<string>) returns (result: seq<string>)
    ensures result == Emit(EntriesOf(cleanLine, lines))
  {
    assert lines[..0] == [];
    var outdent := false;
    var lastNonAtLine: Option<string> := None;
    result := [];
    ghost var es: seq<Entry> := [];
    var i := 0;
    while i < |lines|
      invariant 0 <= i <= |lines|
      invariant es == EntriesOf(cleanLine, lines[..i])
      invariant outdent == HasNonAt(es)
      invariant lastNonAtLine == Pending(es)
      invariant result == Emit(es)
    {
      EntriesStep(cleanLine, lines, i);
      var entry := cleanLine(lines[i], outdent);
      if entry.Some? {
        outdent, lastNonAtLine, result := EmitEntry(es, entry.value, outdent, lastNonAtLine, result);
        es := es + [entry.value];
      }
      i := i + 1;
    }
    assert lines[..i] == lines;
  }

  /** The balance loop of `parseLine`: walking backwards from the end of
      the file capture, count `)` up and `(`-after-a-space down, and stop
      where the count first reaches -1. */
  method FindUnbalancedOpen(file: string) returns (split: Option<nat>)
    ensures split == UnbalancedOpen(file)
  {
    if |file| <= 1 {
      return None;
    }
    var closes := 0;
    var i := |file| - 1;
    while i > 0
      invariant 0 <= i < |file|
      invariant closes == Closes(file, i + 1)
      invariant forall j :: i < j < |file| ==> Closes(file, j) >= 0
      invariant ScanDown(file, |file| - 1) == if i == 0 then None else ScanDown(file, i)
    {
      assert Closes(file, i) == Delta(file, i) + closes;
      if file[i] == ')' {
        closes := closes + 1;
      } else if file[i] == '(' && file[i - 1] == ' ' {
        closes := closes - 1;
        if closes == -1 && file[i - 1] == ' ' {
          return Some(i);
        }
      }
      i := i - 1;
    }
    split := None;
  }

  class StackUtils {
    /** `_internals` */
    const internals: seq<Pattern>
    /** `_cwd`, with forward slashes */
    const cwd: string

    /** `new StackUtils(opts)`, where `processCwd` is `process.cwd()`.
        Without options: the built-in internals and the process directory.
        With options: the given internals (none when the key is there but
        `undefined`, the built-in ones when it is missing), then the ignored
        packages pattern; the base directory is the given one (the process
        directory when the key is missing), empty when that is empty or
        `undefined`. */
    constructor(opts: Option<StackUtilsOptions>, processCwd: string)
      ensures opts.None? ==>
                && internals == NodeInternals()
                && cwd == (if processCwd == "" then "" else ForwardSlashes(processCwd))
      ensures opts.Some? ==>
                var o := opts.value;
                && internals == (match o.internals
                                 case Missing => NodeInternals()
                                 case Undefined => []
                                 case Given(ps) => ps)
                              + (match o.ignoredPackages
                                 case Given(pkgs) => IgnoredPackagesRegExp(pkgs)
                                 case _ => [])
                && cwd == (match o.cwd
                           case Missing => if processCwd == "" then "" else ForwardSlashes(processCwd)
                           case Undefined => ""
                           case Given(d) => if d == "" then "" else ForwardSlashes(d))
      ensures '\\' !in cwd
    {
      // opts = { ignoredPackages: [], ...opts }
      var o := match opts
               case None => StackUtilsOptions(Missing, Given([]), Missing)
               case Some(x) => if x.ignoredPackages.Missing? then x.(ignoredPackages := Given([])) else x;
      if o.internals.Missing? {
        o := o.(internals := Given(NodeInternals()));
      }
      if o.cwd.Missing? {
        o := o.(cwd := Given(processCwd));
      }
      var dir := "";
      if o.cwd.Given? && o.cwd.value != "" {
        dir := ForwardSlashes(o.cwd.value);
      }
      var acc: seq<Pattern> := [];
      if o.internals.Given? {
        acc := acc + o.internals.value;
      }
      if o.ignoredPackages.Given? {
        acc := acc + IgnoredPackagesRegExp(o.ignoredPackages.value);
      }
      internals := acc;
      cwd := dir;
    }

    /** `clean(stack, indentSpaces)`, with `test` the regular-expression
        engine's `RegExp.prototype.test`. */
    method Clean(stack: StackInput, indentSpaces: nat, test: RegexTest) returns (r: Option<string>)
      ensures r == Cleaned(CleanContext(internals, cwd, test), stack, indentSpaces)
    {
      var ctx := CleanContext(internals, cwd, test);
      var indent := Spaces(indentSpaces);
      if stack.NoStack? || stack == Text("") {
        return None;
      }
      var lines := if stack.Text? then Split(stack.text, '\n') else stack.lines;
      if |lines| >= 2 && !IsAtLine(lines[0]) && IsAtLine(lines[1]) {
        lines := lines[1..];
      }
      assert lines == SkipHeader(if stack.Text? then Split(stack.text, '\n') else stack.lines);

      var result := EmitLines(LineCleanerOf(ctx), lines);
      r := Some(Render(result, indent));
    }

    /** `parseLine(line)`, given the frame expression's result on `line`. */
    method ParseLine(line: string, m: Option<FrameMatch>) returns (r: Option<ParsedLine>)
      ensures r == ParseFrame(line, m, cwd)
    {
      if line == "" || m.None? {
        return None;
      }
      var c := m.value;
      var fname := c.fname;
      var file := c.File();

      if c.closeParen && file.Some? && file.value != "" {
        // make the parentheses balanced: the text up to the last unbalanced
        // `(` belongs to the function name
        var f := file.value;
        var split := FindUnbalancedOpen(f);
        if split.Some? {
          var i := split.value;
          UnbalancedOpenIsParen(f, i);
          file := Some(f[i + 1..]);
          fname := Some(NameText(fname) + " (" + f[..i - 1]);
        }
        assert (fname, file.value) == RepairParens(c.fname, f);
      }
      ghost var repaired := fname;

      var methodName: Option<string> := None;
      if fname.Some? && fname.value != "" {
        var methodMatch := MethodMatch(fname.value);
        if methodMatch.Some? {
          fname := Some(methodMatch.value.0);
          methodName := Some(methodMatch.value.1);
        }
      }
      assert (fname, methodName) == SplitAlias(repaired);

      var res := FillFrame(c, fname, methodName, file);
      r := Some(res);
    }

    /** Fills the result object field by field once the names and the file
        are settled. */
    method FillFrame(c: FrameMatch, fname: Option<string>, methodName: Option<string>, file: Option<string>)
      returns (res: ParsedLine)
      ensures res == Frame(c, fname, methodName, file, cwd)
    {
      res := EmptyFrame;
      if c.location.FileLocation? {
        res := res.(line := Some(DecimalValue(c.location.line)));
        res := res.(column := Some(DecimalValue(c.location.column)));
      }
      res := SetFile(res, file, cwd);
      if c.isNew {
        res := res.(isConstructor := true);
      }
      if c.eval.Some? && c.eval.value.origin != "" {
        res := res.(evalOrigin := Some(c.eval.value.origin),
                    evalLine := Some(DecimalValue(c.eval.value.line)),
                    evalColumn := Some(DecimalValue(c.eval.value.column)),
                    evalFile := Some(ForwardSlashes(c.eval.value.file)));
      }
      if c.location.NativeLocation? {
        res := res.(native := true);
      }
      if fname.Some? && fname.value != "" {
        res := res.(functionName := fname);
      }
      if methodName.Some? && methodName.value != "" && fname != methodName {
        res := res.(methodName := methodName);
      }
    }
  }
}
