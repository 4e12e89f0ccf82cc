/** The level and namespace logic of the `Log` class (src/Log.ts): how a
    level is read from a string, how a `DEBUG`-style list of `ns~level`
    entries picks the default level of a namespace, how `setOptions`,
    `setLevel` and `setDefaultOptions` change the logger's settings, which
    messages pass the level threshold, and the plain-text header and
    timestamp written in front of a message. The `DEBUG` environment
    string is a parameter, and the clock readings are integers. */
module Logging {
  import opened Wrappers
  import opened JsString
  import opened LogLevels

  // ---------------------------------------------------------------------
  // Levels
  // ---------------------------------------------------------------------

  /** The `i` entry of the `levels` table: Trace 0 up to SuperInfo 7. */
  function Rank(l: LogLevel): nat {
    match l
    case Trace => 0
    case Debug => 1
    case Info => 2
    case Warn => 3
    case Error => 4
    case Crit => 5
    case Fatal => 6
    case SuperInfo => 7
  }

  /** The table ranks the levels in the order of the enum, each at its own
      place: no two levels share a rank, and SuperInfo ranks highest. */
  lemma RankOrder(a: LogLevel, b: LogLevel)
    ensures Rank(a) == Rank(b) <==> a == b
    ensures Rank(a) <= Rank(SuperInfo) && Rank(Trace) <= Rank(a)
  {
  }

  /** `getLevelFromString`: the level whose string value is `s`, and Debug
      for any other string (no level has its value, by `StringToLogLevel`)
      or for a missing one. */
  function LevelFromString(s: Option<string>): (r: LogLevel)
    ensures s.Some? && StringToLogLevel(s.value).Ok? ==> r.Name() == s.value
    ensures s.None? || StringToLogLevel(s.value).Err? ==> r == Debug
  {
    match s
    case None => Debug
    case Some(v) =>
      match StringToLogLevel(v)
      case Ok(l) => l
      case Err(_) => Debug
  }

  /** What `setLevel` leaves in `level`: the named level when `s` names one,
      the current level otherwise. */
  function LevelAfterSet(current: LogLevel, s: string): (r: LogLevel)
    ensures StringToLogLevel(s).Ok? ==> r.Name() == s
    ensures StringToLogLevel(s).Err? ==> r == current
  {
    match StringToLogLevel(s)
    case Ok(l) => l
    case Err(_) => current
  }

  /** No level name contains the characters the `DEBUG` syntax gives a
      meaning to. */
  lemma NameHasNoSyntax(l: LogLevel)
    ensures ',' !in l.Name() && '~' !in l.Name() && '*' !in l.Name()
  {
    match l
    case Trace => case Debug => case Info => case Warn =>
    case Error => case Crit => case Fatal => case SuperInfo =>
  }

  // ---------------------------------------------------------------------
  // Namespaces
  // ---------------------------------------------------------------------

  /** One parsed `ns~level` entry. */
  datatype NamespaceEntry = NamespaceEntry(namespace: string, level: LogLevel)

  /** `parseNamespace`: the text up to the first `~` is the namespace, and
      the text between the first and the second `~` (if any) names the
      level. */
  function ParseNamespace(ns: string): (r: NamespaceEntry)
    ensures '~' !in r.namespace
  {
    var parts := Split(ns, '~');
    NamespaceEntry(parts[0], LevelFromString(if |parts| > 1 then Some(parts[1]) else None))
  }

  /** Without a `~` the whole entry is the namespace and the level is Debug;
      with one, the namespace is what precedes the first `~` and the level
      is read from the segment that follows it. */
  lemma ParseNamespaceParts(ns: string, rest: string)
    requires '~' !in ns
    ensures ParseNamespace(ns) == NamespaceEntry(ns, Debug)
    ensures ParseNamespace(ns + "~" + rest)
         == NamespaceEntry(ns, LevelFromString(Some(Split(rest, '~')[0])))
  {
    SplitWithout(ns, '~');
    SplitAtFirst(ns, rest, '~');
  }

  /** The test `getDefaultLevelForNamespace` applies to one entry of the
      list: a non-empty namespace part that is `*`, or whose text with every
      `*` removed occurs somewhere in `namespace`. */
  predicate EntryMatches(namespace: string, entry: string) {
    var parsed := ParseNamespace(entry).namespace;
    |parsed| > 0 && (parsed == "*" || IndexOf(namespace, RemoveChar(parsed, '*')).Some?)
  }

  /** The level of the first matching entry. */
  function FirstMatch(namespace: string, entries: seq<string>): Option<LogLevel> {
    if entries == [] then None
    else if EntryMatches(namespace, entries[0]) then Some(ParseNamespace(entries[0]).level)
    else FirstMatch(namespace, entries[1..])
  }

  /** The default level `debugStr` gives `namespace`: none for an empty
      namespace, otherwise that of the first matching entry of the
      comma-separated list. Entries are not trimmed. */
  function DefaultLevel(namespace: string, debugStr: string): (r: Option<LogLevel>)
    ensures namespace == "" ==> r.None?
    ensures r.Some? ==> exists e :: e in Split(debugStr, ',') && EntryMatches(namespace, e)
                                     && r.value == ParseNamespace(e).level
  {
    if namespace == "" then None
    else
      var entries := Split(debugStr, ',');
      FirstMatchIsFirst(namespace, entries);
      FirstMatch(namespace, entries)
  }

  /** `FirstMatch` finds a level exactly when some entry matches, and the
      level it finds is that of the first such entry. */
  lemma {:induction false} FirstMatchIsFirst(namespace: string, entries: seq<string>)
    ensures FirstMatch(namespace, entries).Some? <==>
              exists i :: 0 <= i < |entries| && EntryMatches(namespace, entries[i])
    ensures FirstMatch(namespace, entries).Some? ==>
              exists i :: 0 <= i < |entries| && EntryMatches(namespace, entries[i])
                && (forall j :: 0 <= j < i ==> !EntryMatches(namespace, entries[j]))
                && FirstMatch(namespace, entries).value == ParseNamespace(entries[i]).level
  {
    if entries != [] && !EntryMatches(namespace, entries[0]) {
      var tail := entries[1..];
      FirstMatchIsFirst(namespace, tail);
      if exists i :: 0 <= i < |entries| && EntryMatches(namespace, entries[i]) {
        var i :| 0 <= i < |entries| && EntryMatches(namespace, entries[i]);
        assert tail[i - 1] == entries[i];
      }
      if FirstMatch(namespace, tail).Some? {
        var i :| 0 <= i < |tail| && EntryMatches(namespace, tail[i])
                 && (forall j :: 0 <= j < i ==> !EntryMatches(namespace, tail[j]))
                 && FirstMatch(namespace, tail).value == ParseNamespace(tail[i]).level;
        assert entries[i + 1] == tail[i];
        forall j | 0 <= j < i + 1
          ensures !EntryMatches(namespace, entries[j])
        {
          if j > 0 {
            assert entries[j] == tail[j - 1];
          }
        }
      }
    }
  }

  /** The default level, stated without recursion: an empty namespace has
      none; otherwise there is one exactly when an entry matches, and it is
      the level of the first matching entry. */
  lemma DefaultLevelIsFirstMatch(namespace: string, debugStr: string)
    ensures var entries := Split(debugStr, ',');
            var r := DefaultLevel(namespace, debugStr);
            && (r.Some? <==> namespace != "" && exists i :: 0 <= i < |entries| && EntryMatches(namespace, entries[i]))
            && (r.Some? ==> exists i :: 0 <= i < |entries| && EntryMatches(namespace, entries[i])
                              && (forall j :: 0 <= j < i ==> !EntryMatches(namespace, entries[j]))
                              && r.value == ParseNamespace(entries[i]).level)
  {
    FirstMatchIsFirst(namespace, Split(debugStr, ','));
  }

  /** `getDefaultLevelForNamespace`: scans the entries in order and returns
      the level of the first one that matches. */
  method GetDefaultLevelForNamespace(namespace: string, debugStr: string) returns (r: Option<LogLevel>)
    ensures r == DefaultLevel(namespace, debugStr)
  {
    if namespace != "" {
      var debugNamespaces := Split(debugStr, ',');
      var i := 0;
      while i < |debugNamespaces|
        invariant 0 <= i <= |debugNamespaces|
        invariant FirstMatch(namespace, debugNamespaces[i..]) == DefaultLevel(namespace, debugStr)
      {
        var parsed := ParseNamespace(debugNamespaces[i]);
        var namespaceToCheck := RemoveChar(parsed.namespace, '*');
        assert debugNamespaces[i..][1..] == debugNamespaces[i + 1..];
        if |parsed.namespace| > 0 && (parsed.namespace == "*" || IndexOf(namespace, namespaceToCheck).Some?) {
          return Some(parsed.level);
        }
        i := i + 1;
      }
    }
    return None;
  }

  /** An empty `DEBUG` string gives no namespace a level. */
  lemma NoDebugNoDefault(namespace: string)
    ensures DefaultLevel(namespace, "").None?
  {
    SplitWithout("", ',');
    SplitWithout("", '~');
    assert !EntryMatches(namespace, "");
    assert FirstMatch(namespace, [""]) == FirstMatch(namespace, [""][1..]);
    assert [""][1..] == [];
  }

  /** `DEBUG=*` gives every non-empty namespace the level Debug. */
  lemma WildcardDefault(namespace: string)
    requires namespace != ""
    ensures DefaultLevel(namespace, "*") == Some(Debug)
  {
    SplitWithout("*", ',');
    ParseNamespaceParts("*", "");
  }

  /** `DEBUG=prefix*` gives Debug to every namespace that starts with the
      prefix. */
  lemma PrefixWildcardDefault(namespace: string, prefix: string)
    requires prefix != "" && ',' !in prefix && '~' !in prefix && '*' !in prefix
    requires StartsWith(namespace, prefix)
    ensures DefaultLevel(namespace, prefix + "*") == Some(Debug)
  {
    var entry := prefix + "*";
    SplitWithout(entry, ',');
    ParseNamespaceParts(entry, "");
    RemoveCharTrailing(prefix, '*');
    assert OccursAt(namespace, prefix, 0);
  }

  /** An entry `ns~level` at the head of the list, whose `ns` occurs in the
      namespace, gives the namespace that level, whatever follows it. */
  lemma ListedLevelApplies(namespace: string, ns: string, l: LogLevel, rest: string)
    requires ns != "" && ',' !in ns && '~' !in ns && '*' !in ns
    requires IndexOf(namespace, ns).Some?
    ensures DefaultLevel(namespace, ns + "~" + l.Name() + "," + rest) == Some(l)
  {
    NameHasNoSyntax(l);
    var entry := ns + "~" + l.Name();
    assert ',' !in entry;
    assert ns + "~" + l.Name() + "," + rest == entry + [','] + rest;
    SplitAtFirst(entry, rest, ',');
    ParseNamespaceParts(ns, l.Name());
    SplitWithout(l.Name(), '~');
    StringToLogLevelRoundTrip(l);
    assert namespace != "";
  }

  /** An entry that does not match is passed over: the rest of the list
      decides. */
  lemma UnmatchedEntrySkipped(namespace: string, entry: string, rest: string)
    requires ',' !in entry && !EntryMatches(namespace, entry)
    ensures DefaultLevel(namespace, entry + "," + rest) == DefaultLevel(namespace, rest)
  {
    assert entry + "," + rest == entry + [','] + rest;
    SplitAtFirst(entry, rest, ',');
  }

  // ---------------------------------------------------------------------
  // The level threshold and the header of `handleLog`
  // ---------------------------------------------------------------------

  /** A message at `msg` is written when it is forced or when its rank is at
      least that of the logger's level. */
  predicate Emitted(current: LogLevel, msg: LogLevel, force: bool) {
    force || Rank(msg) >= Rank(current)
  }

  /** Raising a message's level never stops it from being written. */
  lemma EmittedMonotone(current: LogLevel, msg: LogLevel, higher: LogLevel, force: bool)
    requires Rank(msg) <= Rank(higher)
    ensures Emitted(current, msg, force) ==> Emitted(current, higher, force)
  {
  }

  /** SuperInfo is written at every level, a message at the logger's own
      level is written, and Trace is written only at level Trace. */
  lemma ThresholdFacts(current: LogLevel)
    ensures Emitted(current, SuperInfo, false)
    ensures Emitted(current, current, false)
    ensures Emitted(current, Trace, false) <==> current == Trace
  {
  }

  /** The reversed rank table of the namespace tests (trace 7 down to
      superInfo 0) predicts the same outcome as the logger. */
  function ReversedRank(l: LogLevel): nat {
    match l
    case Trace => 7
    case Debug => 6
    case Info => 5
    case Warn => 4
    case Error => 3
    case Crit => 2
    case Fatal => 1
    case SuperInfo => 0
  }

  lemma ReversedRanksAgree(current: LogLevel, msg: LogLevel)
    ensures Emitted(current, msg, false) <==> ReversedRank(current) >= ReversedRank(msg)
  {
  }

  /** The caller's file is looked up for Trace and Debug messages, or for
      every message when `showLineNumbersForAll` is set. */
  predicate ShowsCaller(showLineNumbersForAll: bool, msg: LogLevel) {
    showLineNumbersForAll || Rank(msg) <= Rank(Debug)
  }

  lemma ShowsCallerLevels(msg: LogLevel)
    ensures ShowsCaller(false, msg) <==> msg == Trace || msg == Debug
    ensures ShowsCaller(true, msg)
  {
  }

  /** The namespace in effect for one message: the message's own, when it
      gives one (`??` keeps even an empty string), else the logger's. */
  function NamespaceInEffect(override: Option<string>, namespace: Option<string>): Option<string> {
    if override.Some? then override else namespace
  }

  /** `"  [ns] "` for a namespace that is present and non-empty. */
  function NamespaceTag(ns: Option<string>): string {
    if ns.Some? && ns.value != "" then "  [" + ns.value + "] " else ""
  }

  /** `" | path"` for a relative caller path that is present and non-empty. */
  function CallerTag(callerPath: Option<string>): string {
    if callerPath.Some? && callerPath.value != "" then " | " + callerPath.value else ""
  }

  /** The plain-text header of a message: the namespace tag, then in
      parentheses the level's text, the time and the caller tag. */
  function HeaderText(ns: Option<string>, levelText: string, now: string,
                      callerPath: Option<string>): (h: string)
    ensures |h| == |NamespaceTag(ns)| + |levelText| + |now| + |CallerTag(callerPath)| + 7
    ensures h[|h| - 3..] == "): "
  {
    NamespaceTag(ns) + "(" + (levelText + " | " + now) + (CallerTag(callerPath) + "): ")
  }

  /** The header of a message at `msg`: its level upper-cased, the
      namespace in effect, and the caller's path only when the caller was
      looked up for this message. */
  function Header(msg: LogLevel, now: string, override: Option<string>, namespace: Option<string>,
                  showLineNumbersForAll: bool, callerPath: Option<string>): string
  {
    HeaderText(NamespaceInEffect(override, namespace), ToUpper(msg.Name()), now,
               if ShowsCaller(showLineNumbersForAll, msg) then callerPath else None)
  }

  /** The caller's path appears after the time exactly for the messages the
      caller is looked up for; every other header closes right after the
      time. */
  lemma HeaderCaller(msg: LogLevel, now: string, override: Option<string>, namespace: Option<string>,
                     showLineNumbersForAll: bool, path: string)
    requires path != ""
    ensures var h := Header(msg, now, override, namespace, showLineNumbersForAll, Some(path));
            var k := TagLength(NamespaceInEffect(override, namespace)) + 1 + |ToUpper(msg.Name()) + " | " + now|;
            && (ShowsCaller(showLineNumbersForAll, msg) ==> h[k..] == " | " + path + "): ")
            && (!ShowsCaller(showLineNumbersForAll, msg) ==> h[k..] == "): ")
  {
    var shown := if ShowsCaller(showLineNumbersForAll, msg) then Some(path) else None;
    HeaderBody(NamespaceInEffect(override, namespace), ToUpper(msg.Name()), now, shown);
  }

  /** Where the pieces of a header lie. */
  lemma HeaderParts(tag: string, body: string, tail: string)
    ensures var h := tag + "(" + body + tail;
            && h[..|tag|] == tag && h[|tag|] == '('
            && h[|tag| + 1..|tag| + 1 + |body|] == body
            && h[|tag| + 1 + |body|..] == tail
  {
    var h := tag + "(" + body + tail;
    assert h == tag + (['('] + body + tail);
  }

  /** The length of the namespace tag. */
  function TagLength(ns: Option<string>): (n: nat)
    ensures n == |NamespaceTag(ns)|
  {
    if ns.Some? && ns.value != "" then |ns.value| + 5 else 0
  }

  /** With a namespace the header opens with `"  [ns] "`, so `[ns]` occurs
      in it; without one it opens with `(`. */
  lemma HeaderOpening(ns: Option<string>, levelText: string, now: string,
                      callerPath: Option<string>)
    ensures var h := HeaderText(ns, levelText, now, callerPath);
            && TagLength(ns) < |h| && h[TagLength(ns)] == '('
            && (ns.Some? && ns.value != "" ==>
                  StartsWith(h, "  [") && OccursAt(h, "[" + ns.value + "]", 2))
  {
    var tag := NamespaceTag(ns);
    var body := levelText + " | " + now;
    var tail := CallerTag(callerPath) + "): ";
    HeaderParts(tag, body, tail);
    var h := tag + "(" + body + tail;
    if ns.Some? && ns.value != "" {
      assert h[2..|ns.value| + 4] == tag[2..|ns.value| + 4];
      assert h[..3] == tag[..3];
    }
  }

  /** After the `(` come the level's text, `" | "` and the time, then
      `" | "` and the caller's path when there is one, and the header ends
      with `"): "`. */
  lemma HeaderBody(ns: Option<string>, levelText: string, now: string,
                   callerPath: Option<string>)
    ensures var h := HeaderText(ns, levelText, now, callerPath);
            var k := TagLength(ns) + 1;
            var body := levelText + " | " + now;
            && OccursAt(h, body, k)
            && (callerPath.Some? && callerPath.value != "" ==>
                  h[k + |body|..] == " | " + callerPath.value + "): ")
            && (callerPath.None? || callerPath.value == "" ==> h[k + |body|..] == "): ")
  {
    var tag := NamespaceTag(ns);
    var body := levelText + " | " + now;
    var tail := CallerTag(callerPath) + "): ";
    HeaderParts(tag, body, tail);
  }

  /** A message's own namespace hides the logger's entirely. */
  lemma OverrideWins(msg: LogLevel, now: string, override: string, a: Option<string>, b: Option<string>,
                     showLineNumbersForAll: bool, callerPath: Option<string>)
    ensures Header(msg, now, Some(override), a, showLineNumbersForAll, callerPath)
         == Header(msg, now, Some(override), b, showLineNumbersForAll, callerPath)
  {
  }

  // ---------------------------------------------------------------------
  // The timestamp of `getDatetimeString`
  // ---------------------------------------------------------------------

  /** A number below 10 gets a leading `0`; others are written as they are. */
  function Pad2(n: nat): (r: string)
    ensures IsDigits(r) && |r| >= 2
    ensures n < 100 ==> |r| == 2
    ensures r[0] == '0' <==> n < 10
    ensures DecimalValue(r) == n
  {
    DecimalRoundTrip(n);
    if n < 10 then
      var d := NatToString(n);
      assert "0" + d == ["0"[0]] + d;
      assert ("0" + d)[..1] == "0";
      "0" + d
    else
      NatToString(n)
  }

  /** The separator `c`, a field, then the rest of the timestamp. */
  function Field(c: char, field: string, rest: string): string {
    [c] + field + rest
  }

  /** `year-MM-DD hh:mm:ss:ms` with month, day, hour, minute and second
      padded and the milliseconds not padded. */
  function DatetimeString(year: nat, month: nat, day: nat, hour: nat, minute: nat,
                          second: nat, millisecond: nat): (r: string)
    ensures month < 100 && day < 100 && hour < 100 && minute < 100 && second < 100 ==>
              |r| == |NatToString(year)| + 16 + |NatToString(millisecond)|
  {
    NatToString(year)
      + Field('-', Pad2(month), Field('-', Pad2(day), Field(' ', Pad2(hour),
          Field(':', Pad2(minute), Field(':', Pad2(second), ":" + NatToString(millisecond))))))
  }

  /** At index `k` of `s`: the separator `c`, then the two characters `p`. */
  predicate FieldAt(s: string, k: nat, c: char, p: string)
    requires |p| == 2
  {
    k + 3 <= |s| && s[k] == c && s[k + 1..k + 3] == p
  }

  /** A two-character field is found at its place, and the rest follows it. */
  lemma FieldShape(s: string, k: nat, c: char, p: string, rest: string)
    requires |p| == 2 && k <= |s| && s[k..] == Field(c, p, rest)
    ensures FieldAt(s, k, c, p) && s[k + 3..] == rest
  {
    assert s[k + 1..k + 3] == s[k..][1..3];
    assert s[k + 3..] == s[k..][3..];
  }

  /** The layout of a timestamp built from any year text, five
      two-character fields and any millisecond text. */
  lemma TimestampShape(ys: string, mo: string, d: string, h: string, mi: string, se: string, ms: string)
    requires |mo| == 2 && |d| == 2 && |h| == 2 && |mi| == 2 && |se| == 2
    ensures var s := ys + Field('-', mo, Field('-', d, Field(' ', h, Field(':', mi, Field(':', se, ":" + ms)))));
            var y := |ys|;
            && |s| == y + 16 + |ms|
            && s[..y] == ys
            && FieldAt(s, y, '-', mo)
            && FieldAt(s, y + 3, '-', d)
            && FieldAt(s, y + 6, ' ', h)
            && FieldAt(s, y + 9, ':', mi)
            && FieldAt(s, y + 12, ':', se)
            && s[y + 15] == ':'
            && s[y + 16..] == ms
  {
    var y := |ys|;
    var t5 := Field(':', se, ":" + ms);
    var t4 := Field(':', mi, t5);
    var t3 := Field(' ', h, t4);
    var t2 := Field('-', d, t3);
    var t1 := Field('-', mo, t2);
    var s := ys + t1;
    assert s[y..] == t1;
    FieldShape(s, y, '-', mo, t2);
    FieldShape(s, y + 3, '-', d, t3);
    FieldShape(s, y + 6, ' ', h, t4);
    FieldShape(s, y + 9, ':', mi, t5);
    FieldShape(s, y + 12, ':', se, ":" + ms);
    assert s[y + 16..] == s[y + 15..][1..];
    assert s[..y] == ys;
  }

  /** For calendar values the year comes first, then each padded field at a
      fixed place after it behind its separator, then `:` and the
      milliseconds. Every field reads back as the number it was written
      from, by `Pad2` and `DecimalRoundTrip`. */
  lemma DatetimeFields(year: nat, month: nat, day: nat, hour: nat,
                       minute: nat, second: nat, millisecond: nat)
    requires 1 <= month <= 12 && 1 <= day <= 31 && hour <= 23 && minute <= 59 && second <= 59
    ensures var s := DatetimeString(year, month, day, hour, minute, second, millisecond);
            var y := |NatToString(year)|;
            && |s| == y + 16 + |NatToString(millisecond)|
            && s[..y] == NatToString(year)
            && FieldAt(s, y, '-', Pad2(month))
            && FieldAt(s, y + 3, '-', Pad2(day))
            && FieldAt(s, y + 6, ' ', Pad2(hour))
            && FieldAt(s, y + 9, ':', Pad2(minute))
            && FieldAt(s, y + 12, ':', Pad2(second))
            && s[y + 15] == ':'
            && s[y + 16..] == NatToString(millisecond)
  {
    TimestampShape(NatToString(year), Pad2(month), Pad2(day), Pad2(hour), Pad2(minute), Pad2(second),
                   NatToString(millisecond));
  }

  // ---------------------------------------------------------------------
  // Options and the logger's settings
  // ---------------------------------------------------------------------

  /** A custom adapter, the function that receives each written message.
      Only its identity matters here. */
  datatype Adapter = Adapter(id: nat)

  /** The options object of `setOptions`. A field is `Some` when it is
      present with the type the method looks for (a boolean for the three
      flags, a string for the level and the namespace, a function for the
      adapter); absent or wrongly typed fields are `None`. */
  datatype LogOptions = LogOptions(
    level: Option<string>,
    useColors: Option<bool>,
    asJSON: Option<bool>,
    customAdapter: Option<Adapter>,
    showLineNumbersForAll: Option<bool>,
    namespace: Option<string>)

  /** The fields of a `Log` that the option methods change. */
  datatype Settings = Settings(
    level: LogLevel,
    namespace: Option<string>,
    useColors: bool,
    asJSON: bool,
    showLineNumbersForAll: bool,
    customAdapter: Option<Adapter>)

  /** The field initialisers of the class. */
  const InitialSettings := Settings(Info, None, true, false, false, None)

  /** What `setDefaultOptions` does to the settings: with a non-empty
      namespace, the level becomes the namespace's default level, or Warn
      when `DEBUG` gives it none. */
  function WithDefaults(s: Settings, debugStr: string): (r: Settings)
    ensures r == s.(level := r.level)
    ensures s.namespace.None? || s.namespace == Some("") ==> r == s
    ensures s.namespace.Some? && s.namespace.value != "" && DefaultLevel(s.namespace.value, debugStr).None? ==>
              r.level == Warn
  {
    if s.namespace.Some? && s.namespace.value != "" then
      s.(level := DefaultLevel(s.namespace.value, debugStr).GetOr(Warn))
    else s
  }

  /** The two boolean flags `asJSON` and `useColors`, when supplied. */
  function ApplyFlags(s: Settings, o: LogOptions): Settings {
    s.(asJSON := o.asJSON.GetOr(s.asJSON), useColors := o.useColors.GetOr(s.useColors))
  }

  /** A non-empty level string goes through `setLevel`. */
  function ApplyLevel(s: Settings, o: LogOptions): Settings {
    if o.level.Some? && o.level.value != "" then s.(level := LevelAfterSet(s.level, o.level.value)) else s
  }

  /** The adapter and `showLineNumbersForAll`, when supplied. */
  function ApplyOutput(s: Settings, o: LogOptions): Settings {
    s.(customAdapter := if o.customAdapter.Some? then o.customAdapter else s.customAdapter,
       showLineNumbersForAll := o.showLineNumbersForAll.GetOr(s.showLineNumbersForAll))
  }

  /** A non-empty namespace is stored and `setDefaultOptions` runs again. */
  function ApplyNamespace(s: Settings, o: LogOptions, debugStr: string): Settings {
    if o.namespace.Some? && o.namespace.value != "" then WithDefaults(s.(namespace := o.namespace), debugStr) else s
  }

  /** What `setOptions` does to the settings, in the order of the method. */
  function WithOptions(s: Settings, options: Option<LogOptions>, debugStr: string): (r: Settings)
    ensures options.None? ==> r == s
  {
    match options
    case None => s
    case Some(o) => ApplyNamespace(ApplyOutput(ApplyLevel(ApplyFlags(s, o), o), o), o, debugStr)
  }

  /** Running `setDefaultOptions` again changes nothing more. */
  lemma DefaultsIdempotent(s: Settings, debugStr: string)
    ensures WithDefaults(WithDefaults(s, debugStr), debugStr) == WithDefaults(s, debugStr)
  {
  }

  /** Field by field: each setting takes the supplied value and keeps its
      old one otherwise. The level is the namespace's default level (Warn
      if `DEBUG` gives none) when a non-empty namespace is supplied, even if
      a level is supplied too; otherwise it is the supplied level when that
      names a level, and the old level when it is missing, empty or names
      none. */
  lemma OptionsFieldwise(s: Settings, o: LogOptions, debugStr: string)
    ensures var r := WithOptions(s, Some(o), debugStr);
            var nsGiven := o.namespace.Some? && o.namespace.value != "";
            var named := o.level.Some? && StringToLogLevel(o.level.value).Ok?;
            && r.asJSON == o.asJSON.GetOr(s.asJSON)
            && r.useColors == o.useColors.GetOr(s.useColors)
            && r.showLineNumbersForAll == o.showLineNumbersForAll.GetOr(s.showLineNumbersForAll)
            && r.customAdapter == (if o.customAdapter.Some? then o.customAdapter else s.customAdapter)
            && r.namespace == (if nsGiven then o.namespace else s.namespace)
            && r.level == (if nsGiven then DefaultLevel(o.namespace.value, debugStr).GetOr(Warn)
                           else if named then StringToLogLevel(o.level.value).value
                           else s.level)
  {
    var s1 := ApplyFlags(s, o);
    var s2 := ApplyLevel(s1, o);
    var s3 := ApplyOutput(s2, o);
    assert s2.level == if o.level.Some? && StringToLogLevel(o.level.value).Ok?
                       then StringToLogLevel(o.level.value).value else s.level;
    assert s3.level == s2.level;
  }

  /** No options, no change. */
  lemma NoOptionsNoChange(s: Settings, debugStr: string)
    ensures WithOptions(s, None, debugStr) == s
  {
  }

  /** Applying the same options twice is the same as applying them once. */
  lemma OptionsIdempotent(s: Settings, o: LogOptions, debugStr: string)
    ensures WithOptions(WithOptions(s, Some(o), debugStr), Some(o), debugStr)
         == WithOptions(s, Some(o), debugStr)
  {
    OptionsFieldwise(s, o, debugStr);
    OptionsFieldwise(WithOptions(s, Some(o), debugStr), o, debugStr);
  }

  /** Without `DEBUG`, setting a namespace sets the level to Warn, and a
      level set in a later call is kept. */
  lemma NamespaceThenLevel(s: Settings, ns: string, l: LogLevel)
    requires ns != ""
    ensures var first := WithOptions(s, Some(LogOptions(None, None, None, None, None, Some(ns))), "");
            && first.level == Warn && first.namespace == Some(ns)
            && WithOptions(first, Some(LogOptions(Some(l.Name()), None, None, None, None, None)), "").level == l
  {
    NoDebugNoDefault(ns);
    StringToLogLevelRoundTrip(l);
    assert l.Name() != "" by { assert |l.Name()| > 0; }
  }

  /** A logger: the settings that the option methods change. */
  class Log {
    var level: LogLevel
    var namespace: Option<string>
    var useColors: bool
    var asJSON: bool
    var showLineNumbersForAll: bool
    var customAdapter: Option<Adapter>

    function Current(): Settings
      reads this
    {
      Settings(level, namespace, useColors, asJSON, showLineNumbersForAll, customAdapter)
    }

    /** The field initialisers, then `setDefaultOptions` (which does
        nothing yet, as no namespace is set), then `setOptions`. */
    constructor(options: Option<LogOptions>, debugStr: string)
      ensures Current() == WithOptions(InitialSettings, options, debugStr)
    {
      level := Info;
      namespace := None;
      useColors := true;
      asJSON := false;
      showLineNumbersForAll := false;
      customAdapter := None;
      new;
      SetDefaultOptions(debugStr);
      SetOptions(options, debugStr);
    }

    /** `setLevel`: a string naming a level sets it; anything else is
        ignored. No other field changes. */
    method SetLevel(l: string)
      modifies this
      ensures level == LevelAfterSet(old(level), l)
      ensures namespace == old(namespace) && useColors == old(useColors) && asJSON == old(asJSON)
      ensures showLineNumbersForAll == old(showLineNumbersForAll) && customAdapter == old(customAdapter)
    {
      var parsed := StringToLogLevel(l);
      if parsed.Ok? {
        level := parsed.value;
      }
    }

    /** `setDefaultOptions`: with a non-empty namespace, the level becomes
        the namespace's default level, or Warn. No other field changes. */
    method SetDefaultOptions(debugStr: string)
      modifies this
      ensures Current() == WithDefaults(old(Current()), debugStr)
    {
      if namespace.Some? && namespace.value != "" {
        var l := GetDefaultLevelForNamespace(namespace.value, debugStr);
        if l.Some? {
          StringToLogLevelRoundTrip(l.value);
          SetLevel(l.value.Name());
        } else {
          StringToLogLevelRoundTrip(Warn);
          SetLevel(Warn.Name());
        }
      }
    }

    /** The flag steps of `setOptions`. */
    method SetFlags(o: LogOptions)
      modifies this
      ensures Current() == ApplyFlags(old(Current()), o)
    {
      if o.asJSON.Some? {
        asJSON := o.asJSON.value;
      }
      if o.useColors.Some? {
        useColors := o.useColors.value;
      }
    }

    /** The level step of `setOptions`. */
    method SetLevelOption(o: LogOptions)
      modifies this
      ensures Current() == ApplyLevel(old(Current()), o)
    {
      if o.level.Some? && o.level.value != "" {
        SetLevel(o.level.value);
      }
    }

    /** The adapter and line-number steps of `setOptions`. */
    method SetOutput(o: LogOptions)
      modifies this
      ensures Current() == ApplyOutput(old(Current()), o)
    {
      if o.customAdapter.Some? {
        customAdapter := o.customAdapter;
      }
      if o.showLineNumbersForAll.Some? {
        showLineNumbersForAll := o.showLineNumbersForAll.value;
      }
    }

    /** `setOptions`: each supplied option in turn, the namespace last. */
    method SetOptions(options: Option<LogOptions>, debugStr: string)
      modifies this
      ensures Current() == WithOptions(old(Current()), options, debugStr)
    {
      if options.None? {
        return;
      }
      var o := options.value;
      SetFlags(o);
      SetLevelOption(o);
      SetOutput(o);
      if o.namespace.Some? && o.namespace.value != "" {
        namespace := o.namespace;
        SetDefaultOptions(debugStr);
      }
    }
  }
}
