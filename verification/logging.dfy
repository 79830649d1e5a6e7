/** The logger widget of `seaplayer/objects/log.py`.

    Levels are an integer enumeration; a message is emitted when its level is
    at least the logger's threshold. An emitted line is built with three
    `str.format` templates: the time template filled from the clock reading,
    the level template filled with the level's name and colour, and the line
    template filled with those two texts and the message. Templates are given
    here already split into literal text and replacement fields, each field
    with its fill, alignment and width; a field whose name is not supplied
    makes `str.format` raise, which is `None` here. What the widget receives
    through `RichLog.write` is recorded as a list of entries, and the optional
    text stream `io` as its closed flag and contents. Rich's markup parser is
    the parameter `markup`: the plain text of a line that parses, `None` where
    Rich raises `MarkupError` (a closing tag with nothing open, for one). */
module Logging {
  import opened Common

  // --------------------------------------------------------------- levels

  datatype Level = NotSet | Trace | Info | Debug | Warning | Error | Critical | Off

  /** The integer value of each `TextualLogLevel` member. */
  function LevelValue(l: Level): int {
    match l
    case NotSet => 0
    case Trace => 10
    case Info => 20
    case Debug => 30
    case Warning => 40
    case Error => 50
    case Critical => 100
    case Off => 1000
  }

  /** The identifier each member is declared with. */
  function MemberName(l: Level): string {
    match l
    case NotSet => "NOTSET"
    case Trace => "TRACE"
    case Info => "INFO"
    case Debug => "DEBUG"
    case Warning => "WARNING"
    case Error => "ERROR"
    case Critical => "CRITICAL"
    case Off => "OFF"
  }

  const LEVEL_COLORS: map<Level, string> := map[
    NotSet := "#808080", Trace := "#808080", Debug := "magenta", Info := "green",
    Warning := "orange", Error := "red", Critical := "bold red on white"]

  const LEVEL_NAMES: map<Level, string> := map[
    NotSet := "NOTSET", Trace := "TRACE", Debug := "DEBUG", Info := "INFO",
    Warning := "WARNING", Error := "ERROR", Critical := "CRITICAL"]

  /** `LEVEL_NAMES.get(level, 'UNKNOWN')`. */
  function LevelName(l: Level): (r: string)
    ensures r == "UNKNOWN" <==> l == Off
    ensures l != Off ==> r == MemberName(l)
  {
    LevelTables(l);
    if l in LEVEL_NAMES then LEVEL_NAMES[l] else "UNKNOWN"
  }

  /** `LEVEL_COLORS.get(level, '')`. */
  function LevelColor(l: Level): (r: string)
    ensures r == "" <==> l == Off
  {
    LevelTables(l);
    if l in LEVEL_COLORS then LEVEL_COLORS[l] else ""
  }

  /** Both tables list every member but `OFF`; the names are the members'
      identifiers and no colour is empty. */
  lemma {:induction false} LevelTables(l: Level)
    ensures l in LEVEL_NAMES <==> l != Off
    ensures l in LEVEL_COLORS <==> l != Off
    ensures l in LEVEL_NAMES ==> LEVEL_NAMES[l] == MemberName(l) && LEVEL_NAMES[l] != "UNKNOWN"
    ensures l in LEVEL_COLORS ==> LEVEL_COLORS[l] != ""
  {
    match l
    case NotSet =>
    case Trace =>
    case Info =>
    case Debug =>
    case Warning =>
    case Error =>
    case Critical =>
    case Off =>
  }

  /** The comparison `level >= threshold` on the members' integer values. */
  predicate AtLeast(level: Level, threshold: Level) {
    LevelValue(level) >= LevelValue(threshold)
  }

  /** Declaration order is value order, so `INFO` ranks below `DEBUG`, and no
      two members share a value. */
  lemma {:induction false} LevelOrder()
    ensures LevelValue(NotSet) < LevelValue(Trace) < LevelValue(Info) < LevelValue(Debug)
    ensures LevelValue(Debug) < LevelValue(Warning) < LevelValue(Error) < LevelValue(Critical) < LevelValue(Off)
    ensures forall a: Level, b: Level :: LevelValue(a) == LevelValue(b) ==> a == b
  {
  }

  /** Every level passes the `NOTSET` threshold and only `OFF` passes `OFF`. */
  lemma {:induction false} ThresholdExtremes(l: Level)
    ensures AtLeast(l, NotSet)
    ensures AtLeast(l, Off) <==> l == Off
  {
  }

  // ------------------------------------------------------------ templates

  datatype Align = Default | Left | Right | Center

  /** The format spec of one replacement field: fill character, alignment, width. */
  datatype Spec = Spec(fill: char, align: Align, width: nat)

  const PLAIN: Spec := Spec(' ', Default, 0)

  datatype Piece = Lit(text: string) | Field(name: string, spec: Spec)

  type Template = seq<Piece>

  /** The arguments a template is filled from: texts, integers and the
      clock reading itself. */
  datatype Value = Str(s: string) | Num(n: int) | Clock(now: DateTime)

  /** `str(v)`. */
  function Text(v: Value): string {
    match v
    case Str(s) => s
    case Num(n) => if n < 0 then "-" + Decimal(-n) else Decimal(n)
    case Clock(now) => DateTimeText(now)
  }

  /** Where the value starts inside its padded text, for `pad` fill characters:
      strings default to the left, numbers to the right, and centring puts the
      odd fill character on the right. */
  function LeadingFill(align: Align, v: Value, pad: nat): (r: nat)
    ensures r <= pad
  {
    match align
    case Left => 0
    case Right => pad
    case Center => pad / 2
    case Default => if v.Num? then pad else 0
  }

  /** `format(v, spec)`. */
  function FormatValue(v: Value, spec: Spec): (r: string)
    ensures |Text(v)| >= spec.width ==> r == Text(v)
    ensures |r| == (if |Text(v)| >= spec.width then |Text(v)| else spec.width)
    ensures |Text(v)| < spec.width ==>
      var lead := LeadingFill(spec.align, v, spec.width - |Text(v)|);
      && r[lead..lead + |Text(v)|] == Text(v)
      && (forall i :: 0 <= i < lead ==> r[i] == spec.fill)
      && (forall i :: lead + |Text(v)| <= i < |r| ==> r[i] == spec.fill)
  {
    var s := Text(v);
    if |s| >= spec.width then s
    else
      var pad := spec.width - |s|;
      var lead := LeadingFill(spec.align, v, pad);
      var r := Repeat(spec.fill, lead) + s + Repeat(spec.fill, pad - lead);
      assert r[lead..lead + |s|] == s;
      r
  }

  predicate FieldsBound(t: Template, env: map<string, Value>) {
    forall i :: 0 <= i < |t| && t[i].Field? ==> t[i].name in env
  }

  /** One piece of a template, filled in; `None` for a missing argument. */
  function PieceText(p: Piece, env: map<string, Value>): (r: Option<string>)
    ensures r.Some? <==> (p.Field? ==> p.name in env)
  {
    match p
    case Lit(s) => Some(s)
    case Field(name, spec) => if name in env then Some(FormatValue(env[name], spec)) else None
  }

  /** A template's text is its first piece's text followed by the text of
      the pieces after it. */
  lemma {:induction false} FormatCons(p: Piece, rest: Template, env: map<string, Value>, head: string, tail: string)
    requires PieceText(p, env) == Some(head) && Format(rest, env) == Some(tail)
    ensures Format([p] + rest, env) == Some(head + tail)
  {
    assert ([p] + rest)[0] == p;
    assert ([p] + rest)[1..] == rest;
  }

  /** `template.format(**env)`: `None` when a field names a missing argument. */
  function Format(t: Template, env: map<string, Value>): (r: Option<string>)
    ensures r.Some? <==> FieldsBound(t, env)
    ensures |t| == 0 ==> r == Some("")
    decreases |t|
  {
    if |t| == 0 then Some("")
    else
      var head := PieceText(t[0], env);
      var tail := Format(t[1..], env);
      assert FieldsBound(t, env) <==> (t[0].Field? ==> t[0].name in env) && FieldsBound(t[1..], env) by {
        if FieldsBound(t[1..], env) && (t[0].Field? ==> t[0].name in env) {
          forall i | 0 <= i < |t| && t[i].Field?
            ensures t[i].name in env
          {
            if i > 0 {
              assert t[i] == t[1..][i - 1];
            }
          }
        }
      }
      if head.Some? && tail.Some? then Some(head.value + tail.value) else None
  }

  /** A clock reading, as the `datetime` attributes the time template reads. */
  datatype DateTime = DateTime(year: nat, month: nat, day: nat, hour: nat, minute: nat, second: nat,
                               microsecond: nat)

  /** `str(now)`: the date and the time separated by a space, with the
      microseconds only when they are not zero. */
  function DateTimeText(now: DateTime): string {
    Padded(now.year, 4) + "-" + Padded(now.month, 2) + "-" + Padded(now.day, 2) + " "
      + Padded(now.hour, 2) + ":" + Padded(now.minute, 2) + ":" + Padded(now.second, 2)
      + (if now.microsecond != 0 then "." + Padded(now.microsecond, 6) else "")
  }

  /** `n` in decimal with leading zeros up to `width` digits, as `datetime`
      prints its fields; `PaddedIsZeroPad` shows it is the `0>width` format. */
  function Padded(n: nat, width: nat): string {
    var d := Decimal(n);
    if |d| >= width then d else Repeat('0', width - |d|) + d
  }

  /** The arguments of `format_time.format(now)`: argument 0 itself and its
      numeric attributes. */
  function TimeArgs(now: DateTime): map<string, Value> {
    map["0" := Clock(now),
        "0.day" := Num(now.day), "0.month" := Num(now.month), "0.year" := Num(now.year),
        "0.hour" := Num(now.hour), "0.minute" := Num(now.minute), "0.second" := Num(now.second),
        "0.microsecond" := Num(now.microsecond)]
  }

  /** The arguments of `format_level.format(name=..., color=...)`. */
  function LevelArgs(name: string, color: string): map<string, Value> {
    map["name" := Str(name), "color" := Str(color)]
  }

  /** The arguments of `format_log.format(time=..., level=..., message=...)`. */
  function LineArgs(time: string, level: string, message: string): map<string, Value> {
    map["time" := Str(time), "level" := Str(level), "message" := Str(message)]
  }

  function ZeroPadded(field: string, width: nat): Piece {
    Field(field, Spec('0', Right, width))
  }

  /** `DEFAULT_FORMAT_TIME`: day.month.year hour:minute:second, zero-padded. */
  const DEFAULT_FORMAT_TIME: Template := [
    ZeroPadded("0.day", 2), Lit("."), ZeroPadded("0.month", 2), Lit("."), ZeroPadded("0.year", 4),
    Lit(" "), ZeroPadded("0.hour", 2), Lit(":"), ZeroPadded("0.minute", 2), Lit(":"),
    ZeroPadded("0.second", 2)]

  /** `DEFAULT_FORMAT_LEVEL`: the name centred in 11 columns inside a colour markup tag. */
  const DEFAULT_FORMAT_LEVEL: Template := [
    Lit("["), Field("color", PLAIN), Lit("]"), Field("name", Spec(' ', Center, 11)),
    Lit("[/"), Field("color", PLAIN), Lit("]")]

  /** `DEFAULT_FORMAT_LOG`: `\[time]\[level]: message`, the backslashes
      escaping the brackets from Rich markup. */
  const DEFAULT_FORMAT_LOG: Template := [
    Lit("\\["), Field("time", PLAIN), Lit("]\\["), Field("level", PLAIN), Lit("]: "),
    Field("message", PLAIN)]

  // --------------------------------------------------------------- logger

  /** An open or closed text stream and everything written to it. */
  datatype Stream = Stream(closed: bool, contents: string)

  /** What `RichLog.write` received: a line of text, a traceback, or a panel. */
  datatype Entry = Line(text: string) | TracebackEntry | GroupPanel(title: string)

  datatype Logger = Logger(
    threshold: Level,
    io: Option<Stream>,
    formatTime: Template,
    formatLevel: Template,
    formatLog: Template,
    written: seq<Entry>)

  /** `TextualLogger.__init__`: the threshold defaults to `NOTSET`. */
  function NewLogger(level: Option<Level>, io: Option<Stream>,
                     formatTime: Template := DEFAULT_FORMAT_TIME,
                     formatLevel: Template := DEFAULT_FORMAT_LEVEL,
                     formatLog: Template := DEFAULT_FORMAT_LOG): (lg: Logger)
    ensures level.None? ==> lg.threshold == NotSet
    ensures level.Some? ==> lg.threshold == level.value
    ensures lg.io == io && lg.written == []
    ensures lg.formatTime == formatTime && lg.formatLevel == formatLevel && lg.formatLog == formatLog
  {
    Logger(if level.Some? then level.value else NotSet, io, formatTime, formatLevel, formatLog, [])
  }

  /** Rich's markup parser as the logger meets it: `Text.from_markup(line).plain`
      for a line that parses, `None` where it raises `MarkupError`. The widget
      (`RichLog` with `markup=True`) parses a written line the same way. */
  type Markup = string -> Option<string>

  /** `_iowrite`: an open stream gets the line's plain text and a newline, and
      the number of characters written is returned; without an open stream
      nothing is parsed or written and 0 is returned. Parsing a line that is
      not valid markup raises, which is `None`. */
  function IoWrite(io: Option<Stream>, line: string, markup: Markup): (r: Option<(Option<Stream>, int)>)
    ensures r.None? <==> io.Some? && !io.value.closed && markup(line).None?
    ensures io.None? || io.value.closed ==> r == Some((io, 0))
    ensures r.Some? && io.Some? && !io.value.closed ==>
      var text := markup(line).value;
      && r.value.0 == Some(Stream(false, io.value.contents + text + "\n"))
      && r.value.1 == |text| + 1
  {
    if io.Some? && !io.value.closed then
      match markup(line)
      case None => None
      case Some(text) => Some((Some(Stream(false, io.value.contents + text + "\n")), |text + "\n"|))
    else Some((io, 0))
  }

  /** The names each template is given: the attributes of the clock reading,
      the level's name and colour, and the three parts of a line. */
  const TIME_KEYS: set<string> :=
    {"0", "0.day", "0.month", "0.year", "0.hour", "0.minute", "0.second", "0.microsecond"}
  const LEVEL_KEYS: set<string> := {"name", "color"}
  const LINE_KEYS: set<string> := {"time", "level", "message"}

  /** Every field of `t` names one of `keys`. */
  predicate NamesWithin(t: Template, keys: set<string>) {
    forall i :: 0 <= i < |t| && t[i].Field? ==> t[i].name in keys
  }

  /** The logger's three templates name only the arguments `textual_log` passes them. */
  predicate TemplatesBind(lg: Logger) {
    && NamesWithin(lg.formatTime, TIME_KEYS)
    && NamesWithin(lg.formatLevel, LEVEL_KEYS)
    && NamesWithin(lg.formatLog, LINE_KEYS)
  }

  /** A template binds under `env` exactly when its fields name keys of `env`. */
  lemma {:induction false} BoundIffWithin(t: Template, env: map<string, Value>, keys: set<string>)
    requires env.Keys == keys
    ensures FieldsBound(t, env) <==> NamesWithin(t, keys)
  {
  }

  /** The line `textual_log` assembles, or `None` when a template raises: it
      raises exactly when some template names an argument it is not given. */
  function AssembleLine(lg: Logger, level: Level, message: string, now: DateTime): (r: Option<string>)
    ensures r.Some? <==> TemplatesBind(lg)
  {
    var ftime := Format(lg.formatTime, TimeArgs(now));
    var flevel := Format(lg.formatLevel, LevelArgs(LevelName(level), LevelColor(level)));
    BoundIffWithin(lg.formatTime, TimeArgs(now), TIME_KEYS);
    BoundIffWithin(lg.formatLevel, LevelArgs(LevelName(level), LevelColor(level)), LEVEL_KEYS);
    if ftime.None? || flevel.None? then None
    else
      BoundIffWithin(lg.formatLog, LineArgs(ftime.value, flevel.value, message), LINE_KEYS);
      Format(lg.formatLog, LineArgs(ftime.value, flevel.value, message))
  }

  /** The line `textual_log` would write at `level` assembles and parses as markup. */
  predicate Writable(lg: Logger, level: Level, message: string, now: DateTime, markup: Markup) {
    && TemplatesBind(lg)
    && markup(AssembleLine(lg, level, message, now).value).Some?
  }

  /** `textual_log`: `None` when a template raises, or when `RichLog.write`
      rejects the assembled line as markup. A line the widget accepts parses
      again in `_iowrite`, so the stream write then goes through. */
  function TextualLog(lg: Logger, level: Level, message: string, now: DateTime,
                      markup: Markup): (r: Option<Logger>)
    ensures !AtLeast(level, lg.threshold) ==> r == Some(lg)
    ensures r.None? <==> AtLeast(level, lg.threshold) && !Writable(lg, level, message, now, markup)
    ensures r.Some? && AtLeast(level, lg.threshold) ==>
      var line := AssembleLine(lg, level, message, now).value;
      && IoWrite(lg.io, line, markup).Some?
      && r.value.written == lg.written + [Line(line)]
      && r.value.io == IoWrite(lg.io, line, markup).value.0
      && r.value.threshold == lg.threshold
    ensures r.Some? ==> r.value.formatTime == lg.formatTime && r.value.formatLevel == lg.formatLevel
                        && r.value.formatLog == lg.formatLog
  {
    if AtLeast(level, lg.threshold) then
      match AssembleLine(lg, level, message, now)
      case None => None
      case Some(line) =>
        if markup(line).None? then None
        else Some(lg.(written := lg.written + [Line(line)], io := IoWrite(lg.io, line, markup).value.0))
    else Some(lg)
  }

  /** What a call of `textual_log` at `level` promises: it raises exactly when
      the level passes and the line either does not assemble or is not valid
      markup; below the threshold nothing changes; otherwise the assembled line
      follows the earlier entries, goes to the stream too, and nothing else
      changes. */
  predicate LogOutcome(lg: Logger, level: Level, message: string, now: DateTime, markup: Markup,
                       r: Option<Logger>) {
    && (r.None? <==> AtLeast(level, lg.threshold) && !Writable(lg, level, message, now, markup))
    && (!AtLeast(level, lg.threshold) ==> r == Some(lg))
    && (r.Some? && AtLeast(level, lg.threshold) ==>
          && TemplatesBind(lg)
          && var line := AssembleLine(lg, level, message, now).value;
             && markup(line).Some?
             && IoWrite(lg.io, line, markup).Some?
             && r.value == lg.(written := lg.written + [Line(line)], io := IoWrite(lg.io, line, markup).value.0))
  }

  /** `trace`. */
  function LogTrace(lg: Logger, m: string, now: DateTime, markup: Markup): (r: Option<Logger>)
    ensures LogOutcome(lg, Trace, m, now, markup, r)
  {
    TextualLog(lg, Trace, m, now, markup)
  }

  /** `debug`. */
  function LogDebug(lg: Logger, m: string, now: DateTime, markup: Markup): (r: Option<Logger>)
    ensures LogOutcome(lg, Debug, m, now, markup, r)
  {
    TextualLog(lg, Debug, m, now, markup)
  }

  /** `info`. */
  function LogInfo(lg: Logger, m: string, now: DateTime, markup: Markup): (r: Option<Logger>)
    ensures LogOutcome(lg, Info, m, now, markup, r)
  {
    TextualLog(lg, Info, m, now, markup)
  }

  /** `warning`. */
  function LogWarning(lg: Logger, m: string, now: DateTime, markup: Markup): (r: Option<Logger>)
    ensures LogOutcome(lg, Warning, m, now, markup, r)
  {
    TextualLog(lg, Warning, m, now, markup)
  }

  /** `error`. */
  function LogError(lg: Logger, m: string, now: DateTime, markup: Markup): (r: Option<Logger>)
    ensures LogOutcome(lg, Error, m, now, markup, r)
  {
    TextualLog(lg, Error, m, now, markup)
  }

  /** `critical`. */
  function LogCritical(lg: Logger, m: string, now: DateTime, markup: Markup): (r: Option<Logger>)
    ensures LogOutcome(lg, Critical, m, now, markup, r)
  {
    TextualLog(lg, Critical, m, now, markup)
  }

  /** `exception`: a traceback entry when `ERROR` passes the threshold.
      Rich's `Traceback()` reads the exception being handled and raises
      `ValueError` when there is none, which is `None` here; `handling` says
      whether the call happens inside an `except` block. */
  function Exception(lg: Logger, handling: bool): (r: Option<Logger>)
    ensures !AtLeast(Error, lg.threshold) ==> r == Some(lg)
    ensures r.None? <==> AtLeast(Error, lg.threshold) && !handling
    ensures AtLeast(Error, lg.threshold) && handling ==> r == Some(lg.(written := lg.written + [TracebackEntry]))
    ensures r.Some? ==> r.value.io == lg.io && r.value.threshold == lg.threshold
  {
    if AtLeast(Error, lg.threshold) then
      if handling then Some(lg.(written := lg.written + [TracebackEntry])) else None
    else Some(lg)
  }

  /** `group`: a titled panel when `level` passes the threshold. */
  function Group(lg: Logger, title: string, level: Level): (r: Logger)
    ensures AtLeast(level, lg.threshold) ==> r == lg.(written := lg.written + [GroupPanel(title)])
    ensures !AtLeast(level, lg.threshold) ==> r == lg
    ensures r.io == lg.io && r.threshold == lg.threshold
  {
    if AtLeast(level, lg.threshold) then lg.(written := lg.written + [GroupPanel(title)]) else lg
  }

  /** `ln(n)`: `n` empty lines (`range(n)` is empty for `n <= 0`). */
  method Ln(lg: Logger, n: int := 1) returns (r: Logger)
    ensures r.written == lg.written + Repeat(Line(""), if n > 0 then n else 0)
    ensures r == lg.(written := r.written)
  {
    r := lg;
    var i := 0;
    while i < n
      invariant 0 <= i <= (if n > 0 then n else 0)
      invariant r.written == lg.written + Repeat(Line(""), i)
      invariant r == lg.(written := r.written)
    {
      assert Repeat(Line(""), i + 1) == Repeat(Line(""), i) + [Line("")];
      r := r.(written := r.written + [Line("")]);
      i := i + 1;
    }
    assert i == (if n > 0 then n else 0);
  }

  // ----------------------------------------------------------- properties

  /** `textual_log` raises exactly when the level passes the threshold and the
      line does not assemble or is not valid markup. Otherwise it writes exactly
      one widget line after the earlier entries when the level passes, and none
      when it does not. */
  lemma {:induction false} OneLineIffAtLeast(lg: Logger, level: Level, message: string, now: DateTime, markup: Markup)
    ensures TextualLog(lg, level, message, now, markup).None?
            <==> AtLeast(level, lg.threshold) && !Writable(lg, level, message, now, markup)
    ensures !AtLeast(level, lg.threshold) || Writable(lg, level, message, now, markup) ==>
      var r := TextualLog(lg, level, message, now, markup);
      && r.Some?
      && |r.value.written| == |lg.written| + (if AtLeast(level, lg.threshold) then 1 else 0)
      && r.value.written[..|lg.written|] == lg.written
  {
  }

  /** A write that goes through keeps the stream's presence and closed flag,
      keeps its earlier contents as a prefix, and grows it by exactly the
      reported count. Two lines that parse, written to an open stream, are
      appended in order. */
  lemma {:induction false} IoWriteAppends(io: Option<Stream>, a: string, b: string, markup: Markup)
    ensures var r := IoWrite(io, a, markup);
      r.Some? ==>
      && (r.value.0.Some? <==> io.Some?)
      && (io.Some? ==> r.value.0.value.closed == io.value.closed)
      && (io.Some? ==> io.value.contents <= r.value.0.value.contents)
      && (io.Some? ==> |r.value.0.value.contents| == |io.value.contents| + r.value.1)
    ensures io.Some? && !io.value.closed && markup(a).Some? && markup(b).Some? ==>
      var r := IoWrite(io, a, markup);
      && r.Some?
      && var r2 := IoWrite(r.value.0, b, markup);
         && r2.Some?
         && r2.value.0 == Some(Stream(false, io.value.contents + markup(a).value + "\n" + markup(b).value + "\n"))
         && r.value.1 + r2.value.1 == |markup(a).value| + |markup(b).value| + 2
  {
  }

  /** `group` and `exception` pass the threshold just as `textual_log` does at
      their level (ERROR for `exception`): each writes an entry exactly when a
      log call at that level would act, that is, write its line or raise.
      When the line is writable, that is exactly when the log call writes. */
  lemma {:induction false} EntriesFollowThreshold(lg: Logger, title: string, level: Level, message: string,
                                                  now: DateTime, markup: Markup)
    ensures |Group(lg, title, level).written| > |lg.written|
            <==> TextualLog(lg, level, message, now, markup) != Some(lg)
    ensures Writable(lg, level, message, now, markup) ==>
      && TextualLog(lg, level, message, now, markup).Some?
      && (|Group(lg, title, level).written| > |lg.written|
          <==> |TextualLog(lg, level, message, now, markup).value.written| > |lg.written|)
    ensures Exception(lg, true).Some?
    ensures |Exception(lg, true).value.written| > |lg.written|
            <==> LogError(lg, message, now, markup) != Some(lg)
  {
    if AtLeast(level, lg.threshold) {
      var r := TextualLog(lg, level, message, now, markup);
      assert r.Some? ==> |r.value.written| == |lg.written| + 1;
    }
    if AtLeast(Error, lg.threshold) {
      var r := LogError(lg, message, now, markup);
      assert r.Some? ==> |r.value.written| == |lg.written| + 1;
    }
  }

  /** A logger built without a level drops no level: every line assembles, and
      the call writes it exactly when it is valid markup. */
  lemma {:induction false} DefaultThresholdEmitsAll(io: Option<Stream>, level: Level, message: string, now: DateTime,
                                 markup: Markup)
    ensures var lg := NewLogger(None, io);
      var r := TextualLog(lg, level, message, now, markup);
      && AssembleLine(lg, level, message, now).Some?
      && (r.Some? <==> markup(AssembleLine(lg, level, message, now).value).Some?)
      && (r.Some? ==> |r.value.written| == 1)
  {
    var lg := NewLogger(None, io);
    DefaultLoggerBinds(None, io);
    assert AtLeast(level, lg.threshold) && lg.written == [];
    OneLineIffAtLeast(lg, level, message, now, markup);
  }

  /** `INFO` ranks below `DEBUG`: a logger at threshold `INFO` still emits
      `debug` messages that are valid markup, while `trace` messages are dropped. */
  lemma {:induction false} InfoThresholdKeepsDebug(io: Option<Stream>, message: string, now: DateTime, markup: Markup)
    ensures var lg := NewLogger(Some(Info), io);
      && AssembleLine(lg, Debug, message, now).Some?
      && (LogDebug(lg, message, now, markup).Some? <==> markup(AssembleLine(lg, Debug, message, now).value).Some?)
      && (LogDebug(lg, message, now, markup).Some? ==> |LogDebug(lg, message, now, markup).value.written| == 1)
      && LogTrace(lg, message, now, markup) == Some(lg)
  {
    var lg := NewLogger(Some(Info), io);
    DefaultLoggerBinds(Some(Info), io);
    assert AtLeast(Debug, lg.threshold) && !AtLeast(Trace, lg.threshold) && lg.written == [];
    OneLineIffAtLeast(lg, Debug, message, now, markup);
  }

  /** The default templates name only arguments that are supplied, so
      `str.format` never raises on them. */
  lemma {:induction false} DefaultTemplatesBound(level: Level, now: DateTime)
    ensures FieldsBound(DEFAULT_FORMAT_TIME, TimeArgs(now))
    ensures FieldsBound(DEFAULT_FORMAT_LEVEL, LevelArgs(LevelName(level), LevelColor(level)))
    ensures forall a, b, c :: FieldsBound(DEFAULT_FORMAT_LOG, LineArgs(a, b, c))
  {
  }

  /** A logger built with the default templates always assembles its line;
      whether the line is valid markup is a separate matter (see `OffLine`). */
  lemma {:induction false} DefaultLoggerBinds(level: Option<Level>, io: Option<Stream>)
    ensures TemplatesBind(NewLogger(level, io))
  {
  }

  /** `n` in decimal, left-padded with zeros to `width` digits. */
  function ZeroPad(n: nat, width: nat): string {
    FormatValue(Num(n), Spec('0', Right, width))
  }

  /** A time template that is just `{0}` prints `str(now)`. */
  lemma {:induction false} WholeClockFormats(now: DateTime)
    ensures Format([Field("0", PLAIN)], TimeArgs(now)) == Some(DateTimeText(now))
  {
    TimeArgsLookup(now);
    assert Text(Clock(now)) == DateTimeText(now);
    assert FormatValue(Clock(now), PLAIN) == DateTimeText(now);
    assert PieceText(Field("0", PLAIN), TimeArgs(now)) == Some(DateTimeText(now));
    FormatCons(Field("0", PLAIN), [], TimeArgs(now), DateTimeText(now), "");
    assert [Field("0", PLAIN)] + [] == [Field("0", PLAIN)];
    assert DateTimeText(now) + "" == DateTimeText(now);
  }

  /** `datetime`'s zero padding agrees with the `0>width` format spec. */
  lemma {:induction false} PaddedIsZeroPad(n: nat, width: nat)
    ensures Padded(n, width) == ZeroPad(n, width)
  {
    var d := Decimal(n);
    assert Text(Num(n)) == d;
    if |d| < width {
      var r := ZeroPad(n, width);
      var p := Padded(n, width);
      assert |p| == width == |r|;
      forall i | 0 <= i < width
        ensures p[i] == r[i]
      {
        if i < width - |d| {
          assert p[i] == '0';
        } else {
          assert p[i] == d[i - (width - |d|)];
          assert r[width - |d|..width] == d;
          assert r[i] == r[width - |d|..width][i - (width - |d|)];
        }
      }
    }
  }

  /** The time text of the default template, spelled out. */
  function DefaultTimeText(now: DateTime): string {
    ZeroPad(now.day, 2) + ("." + (ZeroPad(now.month, 2) + ("." + (ZeroPad(now.year, 4)
      + (" " + (ZeroPad(now.hour, 2) + (":" + (ZeroPad(now.minute, 2) + (":" + ZeroPad(now.second, 2))))))))))
  }

  lemma {:induction false} TimeArgsLookup(now: DateTime)
    ensures var env := TimeArgs(now);
      && "0" in env && env["0"] == Clock(now)
      && "0.day" in env && env["0.day"] == Num(now.day)
      && "0.month" in env && env["0.month"] == Num(now.month)
      && "0.year" in env && env["0.year"] == Num(now.year)
      && "0.hour" in env && env["0.hour"] == Num(now.hour)
      && "0.minute" in env && env["0.minute"] == Num(now.minute)
      && "0.second" in env && env["0.second"] == Num(now.second)
  {
  }

  /** The default line template places the three texts between its literals. */
  lemma {:induction false} DefaultLogFormat(time: string, level: string, message: string)
    ensures Format(DEFAULT_FORMAT_LOG, LineArgs(time, level, message))
         == Some("\\[" + (time + ("]\\[" + (level + ("]: " + message)))))
  {
    var env := LineArgs(time, level, message);
    assert env["message"] == Str(message) && env["level"] == Str(level) && env["time"] == Str(time);
    var t5 := [Field("message", PLAIN)];
    var t4 := [Lit("]: ")] + t5;
    var t3 := [Field("level", PLAIN)] + t4;
    var t2 := [Lit("]\\[")] + t3;
    var t1 := [Field("time", PLAIN)] + t2;
    assert DEFAULT_FORMAT_LOG == [Lit("\\[")] + t1;
    assert t5 == t5 + [] && message + "" == message;
    FormatCons(Field("message", PLAIN), [], env, message, "");
    FormatCons(Lit("]: "), t5, env, "]: ", message);
    FormatCons(Field("level", PLAIN), t4, env, level, "]: " + message);
    FormatCons(Lit("]\\["), t3, env, "]\\[", level + ("]: " + message));
    FormatCons(Field("time", PLAIN), t2, env, time, "]\\[" + (level + ("]: " + message)));
    FormatCons(Lit("\\["), t1, env, "\\[", time + ("]\\[" + (level + ("]: " + message))));
  }

  /** Rich markup showing `text` in `color`: `[color]text[/color]`. */
  function ColourTag(color: string, text: string): string {
    "[" + (color + ("]" + (text + ("[/" + (color + "]")))))
  }

  /** The default level template wraps the centred name in a colour tag. */
  lemma {:induction false} DefaultLevelFormat(name: string, color: string)
    ensures Format(DEFAULT_FORMAT_LEVEL, LevelArgs(name, color))
         == Some(ColourTag(color, FormatValue(Str(name), Spec(' ', Center, 11))))
  {
    var env := LevelArgs(name, color);
    var centred := FormatValue(Str(name), Spec(' ', Center, 11));
    assert env["name"] == Str(name) && env["color"] == Str(color);
    var t6 := [Lit("]")];
    var t5 := [Field("color", PLAIN)] + t6;
    var t4 := [Lit("[/")] + t5;
    var t3 := [Field("name", Spec(' ', Center, 11))] + t4;
    var t2 := [Lit("]")] + t3;
    var t1 := [Field("color", PLAIN)] + t2;
    assert DEFAULT_FORMAT_LEVEL == [Lit("[")] + t1;
    assert t6 == t6 + [] && "]" + "" == "]";
    FormatCons(Lit("]"), [], env, "]", "");
    FormatCons(Field("color", PLAIN), t6, env, color, "]");
    FormatCons(Lit("[/"), t5, env, "[/", color + "]");
    FormatCons(Field("name", Spec(' ', Center, 11)), t4, env, centred, "[/" + (color + "]"));
    FormatCons(Lit("]"), t3, env, "]", centred + ("[/" + (color + "]")));
    FormatCons(Field("color", PLAIN), t2, env, color, "]" + (centred + ("[/" + (color + "]"))));
    FormatCons(Lit("["), t1, env, "[", color + ("]" + (centred + ("[/" + (color + "]")))));
  }

  /** The default time template zero-pads each `datetime` field. */
  lemma {:induction false} DefaultTimeFormat(now: DateTime)
    ensures Format(DEFAULT_FORMAT_TIME, TimeArgs(now)) == Some(DefaultTimeText(now))
  {
    var env := TimeArgs(now);
    TimeArgsLookup(now);
    var t10 := [ZeroPadded("0.second", 2)];
    var t9 := [Lit(":")] + t10;
    var t8 := [ZeroPadded("0.minute", 2)] + t9;
    var t7 := [Lit(":")] + t8;
    var t6 := [ZeroPadded("0.hour", 2)] + t7;
    var t5 := [Lit(" ")] + t6;
    var t4 := [ZeroPadded("0.year", 4)] + t5;
    var t3 := [Lit(".")] + t4;
    var t2 := [ZeroPadded("0.month", 2)] + t3;
    var t1 := [Lit(".")] + t2;
    assert DEFAULT_FORMAT_TIME == [ZeroPadded("0.day", 2)] + t1;
    var s10 := ZeroPad(now.second, 2);
    var s9 := ":" + s10;
    var s8 := ZeroPad(now.minute, 2) + s9;
    var s7 := ":" + s8;
    var s6 := ZeroPad(now.hour, 2) + s7;
    var s5 := " " + s6;
    var s4 := ZeroPad(now.year, 4) + s5;
    var s3 := "." + s4;
    var s2 := ZeroPad(now.month, 2) + s3;
    var s1 := "." + s2;
    assert t10 == t10 + [] && s10 + "" == s10;
    FormatCons(ZeroPadded("0.second", 2), [], env, s10, "");
    FormatCons(Lit(":"), t10, env, ":", s10);
    FormatCons(ZeroPadded("0.minute", 2), t9, env, ZeroPad(now.minute, 2), s9);
    FormatCons(Lit(":"), t8, env, ":", s8);
    FormatCons(ZeroPadded("0.hour", 2), t7, env, ZeroPad(now.hour, 2), s7);
    FormatCons(Lit(" "), t6, env, " ", s6);
    FormatCons(ZeroPadded("0.year", 4), t5, env, ZeroPad(now.year, 4), s5);
    FormatCons(Lit("."), t4, env, ".", s4);
    FormatCons(ZeroPadded("0.month", 2), t3, env, ZeroPad(now.month, 2), s3);
    FormatCons(Lit("."), t2, env, ".", s2);
    FormatCons(ZeroPadded("0.day", 2), t1, env, ZeroPad(now.day, 2), s1);
  }

  /** With the default templates, the emitted line is `\[`, the time, `]\[`,
      the colour tag around the centred level name, `]: ` and the message. */
  lemma {:induction false} DefaultLineShape(io: Option<Stream>, level: Level, message: string, now: DateTime)
    ensures var lg := NewLogger(None, io);
      AssembleLine(lg, level, message, now)
        == Some("\\[" + (DefaultTimeText(now) + ("]\\["
                + (ColourTag(LevelColor(level), FormatValue(Str(LevelName(level)), Spec(' ', Center, 11)))
                + ("]: " + message)))))
  {
    var lg := NewLogger(None, io);
    var tag := ColourTag(LevelColor(level), FormatValue(Str(LevelName(level)), Spec(' ', Center, 11)));
    DefaultTimeFormat(now);
    DefaultLevelFormat(LevelName(level), LevelColor(level));
    DefaultLogFormat(DefaultTimeText(now), tag, message);
    assert Format(lg.formatTime, TimeArgs(now)) == Some(DefaultTimeText(now));
    assert Format(lg.formatLevel, LevelArgs(LevelName(level), LevelColor(level))) == Some(tag);
  }

  /** Every level name fits the 11 columns of the default level template, so
      it is padded to exactly 11 characters with the name in the middle. */
  lemma {:induction false} LevelNameCentred(level: Level)
    ensures |FormatValue(Str(LevelName(level)), Spec(' ', Center, 11))| == 11
  {
  }

  /** At OFF the default level text is an empty tag, the name centred in 11
      columns, and a bare closing tag. */
  lemma {:induction false} OffTag()
    ensures ColourTag(LevelColor(Off), FormatValue(Str(LevelName(Off)), Spec(' ', Center, 11)))
         == "[]  UNKNOWN  [/]"
  {
    var v := Str(LevelName(Off));
    assert LevelName(Off) == "UNKNOWN" && LevelColor(Off) == "";
    assert Text(v) == "UNKNOWN";
    assert LeadingFill(Center, v, 4) == 2;
    var centred := FormatValue(v, Spec(' ', Center, 11));
    assert centred == Repeat(' ', 2) + "UNKNOWN" + Repeat(' ', 2);
    assert Repeat(' ', 2) == "  ";
    assert ColourTag("", centred) == "[" + ("" + ("]" + (centred + ("[/" + ("" + "]")))));
  }

  /** A default logger called at OFF writes its line exactly when the markup
      parser accepts it. The line carries `[]  UNKNOWN  [/]`, whose `[/]`
      closes nothing in Rich markup, so Rich's parser rejects it. */
  lemma {:induction false} OffLine(io: Option<Stream>, message: string, now: DateTime, markup: Markup)
    ensures var line := "\\[" + (DefaultTimeText(now) + ("]\\[" + ("[]  UNKNOWN  [/]" + ("]: " + message))));
      && AssembleLine(NewLogger(None, io), Off, message, now) == Some(line)
      && (TextualLog(NewLogger(None, io), Off, message, now, markup).None? <==> markup(line).None?)
  {
    var lg := NewLogger(None, io);
    var line := "\\[" + (DefaultTimeText(now) + ("]\\[" + ("[]  UNKNOWN  [/]" + ("]: " + message))));
    OffTag();
    DefaultLineShape(io, Off, message, now);
    assert AssembleLine(lg, Off, message, now) == Some(line);
    DefaultThresholdEmitsAll(io, Off, message, now, markup);
  }
}
