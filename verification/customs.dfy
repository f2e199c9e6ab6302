/**
 * The pure string rules of the logger in src/customs.rs: the category a log target is
 * filed under, the `[CAT:LEVEL]` label, the caller name picked from a backtrace, and the
 * level filter.
 */
module Customs {
  import opened Wrappers
  import opened Text

  /** The five levels of the `log` crate, most severe first. */
  datatype Level = Error | Warn | Info | Debug | Trace {

    /** The level's verbosity rank, 1 for `Error` up to 5 for `Trace`. */
    function Rank(): nat {
      match this
      case Error => 1
      case Warn => 2
      case Info => 3
      case Debug => 4
      case Trace => 5
    }

    /** How a level prints. */
    function Name(): string {
      match this
      case Error => "ERROR"
      case Warn => "WARN"
      case Info => "INFO"
      case Debug => "DEBUG"
      case Trace => "TRACE"
    }
  }

  /** `CustomLogs::enabled`: every level passes the `<= Trace` filter. */
  function Enabled(level: Level): (r: bool)
    ensures r
  {
    level.Rank() <= Trace.Rank()
  }

  /** The category keywords, in the order the classifier tries them. */
  const Keywords: seq<string> := ["HTTP", "POSTGRES", "WEBSOCKET", "DATABASE", "DAT"]

  /**
   * The category of a log target: the first keyword, in `Keywords` order, that the target
   * contains; the empty string when it contains none.
   */
  function Category(target: string): (r: string)
    ensures r == "" || r in Keywords
    ensures r == "" <==> forall k :: 0 <= k < |Keywords| ==> !Contains(target, Keywords[k])
    ensures forall k :: 0 <= k < |Keywords| && r == Keywords[k] ==>
      Contains(target, r) && forall j :: 0 <= j < k ==> !Contains(target, Keywords[j])
  {
    if Contains(target, "HTTP") then "HTTP"
    else if Contains(target, "POSTGRES") then "POSTGRES"
    else if Contains(target, "WEBSOCKET") then "WEBSOCKET"
    else if Contains(target, "DATABASE") then "DATABASE"
    else if Contains(target, "DAT") then "DAT"
    else ""
  }

  /**
   * The bracketed label of a log line: `[LEVEL]` without a category, `[CAT:LEVEL]` with one.
   * A label determines its colon-free category and its level.
   */
  function Label(category: string, level: Level): (r: string)
    ensures ':' !in category ==> ParseLabel(r) == Some((category, level))
  {
    LevelNameReadsBack(level);
    if category == "" then
      ParseBareLabel(level.Name(), level);
      "[" + level.Name() + "]"
    else if ':' in category then "[" + category + ":" + level.Name() + "]"
    else
      ParseCategoryLabel(category, level.Name(), level);
      "[" + category + ":" + level.Name() + "]"
  }

  /** The level a printed name stands for. */
  function LevelNamed(name: string): Option<Level> {
    if name == "ERROR" then Some(Error)
    else if name == "WARN" then Some(Warn)
    else if name == "INFO" then Some(Info)
    else if name == "DEBUG" then Some(Debug)
    else if name == "TRACE" then Some(Trace)
    else None
  }

  /** The index of the first `c` in `s`. */
  function IndexOf(s: string, c: char): (r: Option<nat>)
    ensures r.None? <==> c !in s
    ensures r.Some? ==> r.value < |s| && s[r.value] == c && c !in s[..r.value]
  {
    if |s| == 0 then None
    else if s[0] == c then Some(0)
    else
      match IndexOf(s[1..], c)
      case None => None
      case Some(i) =>
        assert s[..i + 1] == [s[0]] + s[1..][..i];
        Some(i + 1)
  }

  /** Reads a label back into its category and level, splitting at the first colon. */
  function ParseLabel(tag: string): Option<(string, Level)> {
    if |tag| < 2 || tag[0] != '[' || tag[|tag| - 1] != ']' then None
    else
      var inner := tag[1..|tag| - 1];
      match IndexOf(inner, ':')
      case None =>
        (match LevelNamed(inner)
         case None => None
         case Some(level) => Some(("", level)))
      case Some(i) =>
        if i == 0 then None
        else
          match LevelNamed(inner[i + 1..])
          case None => None
          case Some(level) => Some((inner[..i], level))
  }

  /** A level's printed name reads back as that level and has no colon. */
  lemma LevelNameReadsBack(level: Level)
    ensures LevelNamed(level.Name()) == Some(level)
    ensures ':' !in level.Name()
  {
  }

  lemma ParseBareLabel(name: string, level: Level)
    requires ':' !in name && LevelNamed(name) == Some(level)
    ensures ParseLabel("[" + name + "]") == Some(("", level))
  {
  }

  lemma ParseCategoryLabel(category: string, name: string, level: Level)
    requires category != "" && ':' !in category && LevelNamed(name) == Some(level)
    ensures ParseLabel("[" + category + ":" + name + "]") == Some((category, level))
  {
    var inner := category + ":" + name;
    var tag := "[" + category + ":" + name + "]";
    assert tag[1..|tag| - 1] == inner;
    FirstColon(category, name);
    assert inner[..|category|] == category;
    assert inner[|category| + 1..] == name;
  }

  lemma FirstColon(category: string, name: string)
    requires ':' !in category
    ensures IndexOf(category + ":" + name, ':') == Some(|category|)
  {
    var inner := category + ":" + name;
    assert inner[|category|] == ':';
    assert inner[..|category|] == category;
  }

  /** No category contains a colon, so every label of a classified target reads back. */
  lemma CategoryLabelReadsBack(target: string, level: Level)
    ensures ParseLabel(Label(Category(target), level)) == Some((Category(target), level))
  {
  }

  /** Classification of the targets of the `http!` and `postgres!` macros. */
  lemma HttpAndPostgresTargets()
    ensures Category("HTTP") == "HTTP"
    ensures Category("POSTGRES") == "POSTGRES"
  {
    assert StartsWith("HTTP", "HTTP");
    assert StartsWith("POSTGRES", "POSTGRES");
    NotContainsMissingChar("POSTGRES", "HTTP");
  }

  /** A target mentioning "HTTP" is filed as "HTTP", whatever else it mentions. */
  lemma HttpWins(target: string)
    requires Contains(target, "HTTP")
    ensures Category(target) == "HTTP"
  {
  }

  /** A target mentioning no keyword has an empty category and the bare `[LEVEL]` label. */
  lemma UncategorisedLabel(target: string, level: Level)
    requires forall k :: 0 <= k < |Keywords| ==> !Contains(target, Keywords[k])
    ensures Category(target) == ""
    ensures Label(Category(target), level) == "[" + level.Name() + "]"
  {
  }

  /** The `ws!` target "WEBSOCKET" is filed as "WEBSOCKET". */
  lemma WebsocketTarget()
    ensures Category("WEBSOCKET") == "WEBSOCKET"
  {
    assert StartsWith("WEBSOCKET", "WEBSOCKET");
    NotContainsMissingChar("WEBSOCKET", "HTTP");
    NotContainsMissingChar("WEBSOCKET", "POSTGRES");
  }

  /** The `wss!` target "WEBSOCKET:SECURE" is filed as "WEBSOCKET" too. */
  lemma SecureWebsocketTarget()
    ensures Category("WEBSOCKET:SECURE") == "WEBSOCKET"
  {
    SecureTargetHasWebsocket();
    SecureTargetLacksHttp();
    SecureTargetLacksPostgres();
    FiledAsWebsocket("WEBSOCKET:SECURE");
  }

  lemma SecureTargetHasWebsocket()
    ensures Contains("WEBSOCKET:SECURE", "WEBSOCKET")
  {
  }

  lemma SecureTargetLacksHttp()
    ensures !Contains("WEBSOCKET:SECURE", "HTTP")
  {
    NotContainsMissingChar("WEBSOCKET:SECURE", "HTTP");
  }

  lemma SecureTargetLacksPostgres()
    ensures !Contains("WEBSOCKET:SECURE", "POSTGRES")
  {
    NotContainsMissingChar("WEBSOCKET:SECURE", "POSTGRES");
  }

  lemma FiledAsWebsocket(target: string)
    requires Contains(target, "WEBSOCKET") && !Contains(target, "HTTP") && !Contains(target, "POSTGRES")
    ensures Category(target) == "WEBSOCKET"
  {
  }

  /** "DATABASE" is filed as "DATABASE" although it also contains "DAT", which is tried later. */
  lemma DatabaseTarget()
    ensures Contains("DATABASE", "DAT")
    ensures Category("DATABASE") == "DATABASE"
  {
    assert StartsWith("DATABASE", "DAT");
    assert StartsWith("DATABASE", "DATABASE");
    NotContainsMissingChar("DATABASE", "HTTP");
    NotContainsMissingChar("DATABASE", "POSTGRES");
    NotContainsMissingChar("DATABASE", "WEBSOCKET");
  }

  /** The `datl!` target "DAT" is filed as "DAT". */
  lemma DatTarget()
    ensures Category("DAT") == "DAT"
  {
  }

  /** A frame name the selector accepts: it mentions neither "log" nor "function". */
  predicate Eligible(frame: Option<string>) {
    frame.Some? && !Contains(frame.value, "log") && !Contains(frame.value, "function")
  }

  /** Frame i is the first eligible one. */
  ghost predicate FirstEligible(frames: seq<Option<string>>, i: int) {
    0 <= i < |frames| && Eligible(frames[i]) && forall j :: 0 <= j < i ==> !Eligible(frames[j])
  }

  /** A symbol name with every "Server::" removed and everything from the first "::" on dropped. */
  function ShortName(name: string): (r: string)
    ensures !Contains(r, "::")
    ensures !Contains(name, "Server::") ==> |r| <= |name| && r == name[..|r|]
    ensures !Contains(name, "Server::") ==>
      (|r| < |name| ==> StartsWith(name[|r|..], "::")) && forall j :: 0 <= j < |r| ==> !StartsWith(name[j..], "::")
    ensures var m := ReplaceAll(name, "Server::", "");
      |r| <= |m| && r == m[..|r|] && (|r| < |m| ==> StartsWith(m[|r|..], "::"))
      && forall j :: 0 <= j < |r| ==> !StartsWith(m[j..], "::")
  {
    BeforeFirst(ReplaceAll(name, "Server::", ""), "::")
  }

  /**
   * `function()`: the shortened name of the first backtrace frame whose first symbol has a
   * name that is eligible; `None` for a frame means it has no named first symbol.
   */
  function FunctionName(frames: seq<Option<string>>): (r: Option<string>)
    ensures r.None? <==> forall i :: 0 <= i < |frames| ==> !Eligible(frames[i])
    ensures r.Some? ==> exists i :: FirstEligible(frames, i) && r.value == ShortName(frames[i].value)
    decreases |frames|
  {
    if |frames| == 0 then None
    else if Eligible(frames[0]) then
      assert FirstEligible(frames, 0);
      Some(ShortName(frames[0].value))
    else
      var r := FunctionName(frames[1..]);
      ShiftFirstEligible(frames, r);
      r
  }

  lemma ShiftFirstEligible(frames: seq<Option<string>>, r: Option<string>)
    requires |frames| > 0 && !Eligible(frames[0])
    requires r.Some? ==> exists i :: FirstEligible(frames[1..], i) && r.value == ShortName(frames[1..][i].value)
    ensures r.Some? ==> exists i :: FirstEligible(frames, i) && r.value == ShortName(frames[i].value)
  {
  }

  /** The function column of a log line: the shortened name of the first eligible frame, or "unknown". */
  function CallerName(frames: seq<Option<string>>): (r: string)
    ensures r == "unknown" || !Contains(r, "::")
    ensures (forall i :: 0 <= i < |frames| ==> !Eligible(frames[i])) ==> r == "unknown"
    ensures forall i :: FirstEligible(frames, i) ==> r == ShortName(frames[i].value)
  {
    FirstEligibleUnique(frames);
    FunctionName(frames).GetOr("unknown")
  }

  /** At most one frame is the first eligible one. */
  lemma FirstEligibleUnique(frames: seq<Option<string>>)
    ensures forall i, j :: FirstEligible(frames, i) && FirstEligible(frames, j) ==> i == j
  {
  }
}
