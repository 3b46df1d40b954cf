/** The metadata records produced by the external `exiftool` program, and the
    error mapping of `run_exiftool` in src/exiftool.rs. Running the program,
    decoding its output and parsing JSON are not modelled: one run of the tool
    is an input value that says how the run ended. */
module Exiftool {
  import opened Wrappers
  import opened Text
  import opened Errors

  /** A JSON value as `serde_json::Value` holds it (numbers as integers). */
  datatype Json =
    | JNull
    | JBool(b: bool)
    | JNumber(n: int)
    | JString(s: string)
    | JArray(items: seq<Json>)
    | JObject(fields: map<string, Json>)

  /** `value[key]`: the member named `key` of an object, and `Null` for a
      missing member or for a value that is not an object. */
  function Index(v: Json, key: string): (r: Json)
    ensures v.JObject? && key in v.fields ==> r == v.fields[key]
    ensures !(v.JObject? && key in v.fields) ==> r.JNull?
  {
    match v
    case JObject(fields) => if key in fields then fields[key] else JNull
    case _ => JNull
  }

  /** `value.as_str()`: the text of a string and nothing for anything else. */
  function AsStr(v: Json): (r: Option<string>)
    ensures r.Some? <==> v.JString?
    ensures r.Some? ==> v == JString(r.value)
  {
    if v.JString? then Some(v.s) else None
  }

  /** `record[key].as_str()`. */
  function Field(record: Json, key: string): (r: Option<string>)
    ensures r.Some? <==> record.JObject? && key in record.fields && record.fields[key].JString?
    ensures r.Some? ==> record.fields[key] == JString(r.value)
  {
    AsStr(Index(record, key))
  }

  /** How one run of the external tool ended: it could not be started, or it
      exited with a status, its error stream as text, its output decoded as
      UTF-8 (nothing when the bytes are not UTF-8) and that output parsed as a
      JSON array (nothing when it is not one). */
  datatype ToolRun =
    | SpawnFailed
    | Exited(success: bool, stderr: string, stdout: Option<string>, parsed: Option<seq<Json>>)

  const NoFilesMessage: string := "No files provided to ExifTool"
  const EmptyOutputMessage: string := "ExifTool returned empty output"
  const FailedPrefix: string := "ExifTool failed: "

  /** Whether a run yields records, and which. */
  predicate Succeeds(run: ToolRun) {
    && run.Exited? && run.success && run.stdout.Some?
    && !AllSpace(run.stdout.value) && run.parsed.Some?
  }

  /** `run_exiftool`: the checks in the order the source makes them. The
      number and order of the records are those the tool printed; nothing
      ties them to `paths`. */
  function RunExiftool(paths: seq<string>, run: ToolRun): (r: Result<seq<Json>, AppError>)
    ensures |paths| == 0 ==> r == Failure(ExifTool(NoFilesMessage))
    ensures r.Success? <==> |paths| > 0 && Succeeds(run)
    ensures r.Success? ==> r.value == run.parsed.value
    ensures |paths| > 0 && run.SpawnFailed? ==> r == Failure(Io)
    ensures |paths| > 0 && run.Exited? && !run.success ==> r == Failure(ExifTool(FailedPrefix + run.stderr))
    ensures |paths| > 0 && run.Exited? && run.success && run.stdout.None? ==> r == Failure(Utf8)
    ensures |paths| > 0 && run.Exited? && run.success && run.stdout.Some? && AllSpace(run.stdout.value)
            ==> r == Failure(ExifTool(EmptyOutputMessage))
    ensures |paths| > 0 && run.Exited? && run.success && run.stdout.Some? && !AllSpace(run.stdout.value) && run.parsed.None?
            ==> r == Failure(Serialization)
  {
    if |paths| == 0 then Failure(ExifTool(NoFilesMessage))
    else match run
      case SpawnFailed => Failure(Io)
      case Exited(success, stderr, stdout, parsed) =>
        if !success then Failure(ExifTool(FailedPrefix + stderr))
        else match stdout
          case None => Failure(Utf8)
          case Some(text) =>
            TrimEmpty(text);
            if Trim(text) == [] then Failure(ExifTool(EmptyOutputMessage))
            else match parsed
              case None => Failure(Serialization)
              case Some(records) => Success(records)
  }
}
