/** The request routing of the server: which tool a name selects, which
    summary a resource URI names, and how prompt arguments are completed
    and checked. */
module Handlers {
  import opened Wrappers
  import opened Text
  import opened Calendar

  /* ---------------------------------------------------------------------- */
  /* _dispatch_tool                                                          */
  /* ---------------------------------------------------------------------- */

  /** The names the dispatch table has a handler for. */
  const ToolNames: seq<string> := [
    "record_expense", "record_income", "query_finance",
    "add_todo", "complete_todo", "list_todos",
    "record_health", "query_health",
    "add_diary", "search_diary"]

  /** The outcome of looking a tool name up: the handler to run, or the
      reply for a name nobody handles. */
  datatype Dispatch = Run(tool: string) | Unknown(reply: string)

  /** `_dispatch_tool`: a known name runs its handler; any other name runs
      nothing and is answered with a message naming it. */
  function DispatchTool(name: string): (r: Dispatch)
    ensures r.Run? <==> name in ToolNames
    ensures r.Run? ==> r.tool == name
    ensures r.Unknown? ==> r.reply == "Unknown tool: " + name
  {
    if name in ToolNames then Run(name) else Unknown("Unknown tool: " + name)
  }

  /** The daily-log tools have no entry in the dispatch table. */
  lemma DailyLogToolsUnknown(name: string)
    requires name == "add_daily_log" || name == "search_daily_log"
    ensures DispatchTool(name) == Unknown("Unknown tool: " + name)
  {
    forall k | 0 <= k < |ToolNames|
      ensures ToolNames[k] != name
    {
      assert |ToolNames[k]| != |name| || ToolNames[k][0] != name[0];
    }
  }

  /* ---------------------------------------------------------------------- */
  /* _resolve_resource                                                       */
  /* ---------------------------------------------------------------------- */

  const SummaryPrefix := "daily://summary/"
  const TodayUri := "daily://summary/today"
  const WeeklyUri := "daily://summary/weekly"

  /** The summary a resource URI selects. */
  datatype Summary = Today | Weekly | DailyFor(date: string)

  /** `_resolve_resource`. The two fixed URIs are tried first. Any other
      URI under the prefix has every occurrence of the prefix removed, and
      names the daily summary of what is left when that is a date. All else
      is an unknown resource. */
  function ResolveResource(uri: string): (r: Result<Summary>)
    ensures uri == TodayUri ==> r == Ok(Today)
    ensures uri == WeeklyUri ==> r == Ok(Weekly)
    ensures r.Ok? && r.value.DailyFor? ==>
      SummaryPrefix <= uri && r.value.date == RemoveAll(uri, SummaryPrefix)
      && ParseDate(r.value.date).Some?
    ensures r.Err? <==>
      uri != TodayUri && uri != WeeklyUri
      && !(SummaryPrefix <= uri && ParseDate(RemoveAll(uri, SummaryPrefix)).Some?)
    ensures r.Err? ==> r.error == Raised(ValueError, "Unknown resource: " + uri)
  {
    if uri == TodayUri then Ok(Today)
    else if uri == WeeklyUri then Ok(Weekly)
    else if SummaryPrefix <= uri && ParseDate(RemoveAll(uri, SummaryPrefix)).Some? then
      Ok(DailyFor(RemoveAll(uri, SummaryPrefix)))
    else Err(Raised(ValueError, "Unknown resource: " + uri))
  }

  /** The URI of any calendar date resolves to that date's daily summary. */
  lemma DateUriResolves(t: DateTime)
    requires ValidDate(t)
    ensures ResolveResource(SummaryPrefix + FormatDate(t)) == Ok(DailyFor(FormatDate(t)))
  {
    var d := FormatDate(t);
    RemoveAllLeading(SummaryPrefix, d);
    RemoveAllShort(d, SummaryPrefix);
    ParseFormatDate(t);
  }

  /** Because every occurrence of the prefix is removed, a doubled prefix
      still names the date. */
  lemma DoubledPrefixResolves(t: DateTime)
    requires ValidDate(t)
    ensures ResolveResource(SummaryPrefix + SummaryPrefix + FormatDate(t)) == Ok(DailyFor(FormatDate(t)))
  {
    var d := FormatDate(t);
    var uri := SummaryPrefix + SummaryPrefix + d;
    assert uri == SummaryPrefix + (SummaryPrefix + d);
    RemoveAllLeading(SummaryPrefix, SummaryPrefix + d);
    RemoveAllLeading(SummaryPrefix, d);
    RemoveAllShort(d, SummaryPrefix);
    ParseFormatDate(t);
    assert |uri| == 42;
  }

  /** A URI outside the prefix is never resolved. */
  lemma ForeignUriRejected(uri: string)
    requires !(SummaryPrefix <= uri)
    ensures ResolveResource(uri) == Err(Raised(ValueError, "Unknown resource: " + uri))
  {
  }

  /* ---------------------------------------------------------------------- */
  /* _apply_prompt_defaults                                                  */
  /* ---------------------------------------------------------------------- */

  /** The default arguments of each prompt; `today` is the current date as
      `YYYY-MM-DD`. */
  function Defaults(name: string, today: string): map<string, string> {
    if name == "daily-review" then map["date" := today]
    else if name == "weekly-planning" then map["focus" := "general productivity"]
    else if name == "health-checkup" then map["metric_type" := "all", "days" := "30"]
    else map[]
  }

  /** `dict.setdefault`. */
  function SetDefault(m: map<string, string>, k: string, v: string): (r: map<string, string>)
    ensures r.Keys == m.Keys + {k}
    ensures forall x :: x in m ==> r[x] == m[x]
    ensures k !in m ==> r[k] == v
  {
    if k in m then m else m[k := v]
  }

  /** `_apply_prompt_defaults`: the caller's arguments, each kept as
      given, completed with the prompt's defaults for the keys the caller
      left out. */
  function ApplyPromptDefaults(name: string, args: map<string, string>, today: string): (r: map<string, string>)
    ensures r.Keys == args.Keys + Defaults(name, today).Keys
    ensures forall k :: k in args ==> r[k] == args[k]
    ensures forall k :: k in r && k !in args ==> r[k] == Defaults(name, today)[k]
  {
    if name == "daily-review" then SetDefault(args, "date", today)
    else if name == "weekly-planning" then SetDefault(args, "focus", "general productivity")
    else if name == "health-checkup" then SetDefault(SetDefault(args, "metric_type", "all"), "days", "30")
    else args
  }

  /** Applying the defaults twice changes nothing more. */
  lemma ApplyDefaultsIdempotent(name: string, args: map<string, string>, today: string)
    ensures ApplyPromptDefaults(name, ApplyPromptDefaults(name, args, today), today)
            == ApplyPromptDefaults(name, args, today)
  {
  }

  /** A prompt without defaults gets the caller's arguments unchanged. */
  lemma NoDefaultsForOtherPrompts(name: string, args: map<string, string>, today: string)
    requires name !in {"daily-review", "weekly-planning", "health-checkup"}
    ensures ApplyPromptDefaults(name, args, today) == args
  {
  }

  /* ---------------------------------------------------------------------- */
  /* get_prompt                                                              */
  /* ---------------------------------------------------------------------- */

  const PromptNames: set<string> := {"daily-review", "weekly-planning", "financial-analysis", "health-checkup"}

  /** The fields each prompt template refers to, in the order they appear
      in the template. */
  function Placeholders(name: string): seq<string> {
    if name == "daily-review" then ["date"]
    else if name == "weekly-planning" then ["focus"]
    else if name == "financial-analysis" then ["period"]
    else if name == "health-checkup" then ["metric_type", "days"]
    else []
  }

  /** The first field of `fields` missing from `args`, if any: the key
      `str.format` reports. */
  function FirstMissing(fields: seq<string>, args: map<string, string>): (r: Option<string>)
    ensures r.None? <==> forall i :: 0 <= i < |fields| ==> fields[i] in args
    ensures r.Some? ==> r.value in fields && r.value !in args
    ensures r.Some? ==> exists i :: 0 <= i < |fields| && fields[i] == r.value
                                    && forall j :: 0 <= j < i ==> fields[j] in args
  {
    if |fields| == 0 then None
    else if fields[0] !in args then Some(fields[0])
    else
      var r := FirstMissing(fields[1..], args);
      if r.Some? then
        ghost var i :| 0 <= i < |fields[1..]| && fields[1..][i] == r.value
                       && forall j :: 0 <= j < i ==> fields[1..][j] in args;
        assert fields[i + 1] == r.value;
        r
      else r
  }

  /** `get_prompt`, up to the template text: the values that fill the
      template's fields. An unknown prompt name and a field left without a
      value after the defaults are applied are `ValueError`s. A missing
      argument dictionary counts as an empty one. */
  function GetPrompt(name: string, arguments: Option<map<string, string>>, today: string): (r: Result<map<string, string>>)
    ensures name !in PromptNames ==> r == Err(Raised(ValueError, "Unknown prompt: " + name))
    ensures name in PromptNames ==>
      var args := ApplyPromptDefaults(name, arguments.GetOr(map[]), today);
      (r.Ok? <==> forall f :: f in Placeholders(name) ==> f in args)
      && (r.Ok? ==> r.value.Keys == (set f | f in Placeholders(name)) && forall f :: f in r.value ==> r.value[f] == args[f])
      && (r.Err? ==> r.error == Raised(ValueError, "Missing required argument: '" + FirstMissing(Placeholders(name), args).value + "'"))
  {
    if name !in PromptNames then Err(Raised(ValueError, "Unknown prompt: " + name))
    else
      var args := ApplyPromptDefaults(name, arguments.GetOr(map[]), today);
      var fields := Placeholders(name);
      match FirstMissing(fields, args)
      case Some(f) => Err(Raised(ValueError, "Missing required argument: '" + f + "'"))
      case None => Ok(map f | f in fields :: args[f])
  }

  /** Only the financial analysis can lack an argument: every other prompt
      has a default for each of its fields. */
  lemma OnlyPeriodIsRequired(name: string, arguments: Option<map<string, string>>, today: string)
    requires name in PromptNames
    ensures GetPrompt(name, arguments, today).Err? <==>
      name == "financial-analysis" && (arguments.None? || "period" !in arguments.value)
  {
  }
}
