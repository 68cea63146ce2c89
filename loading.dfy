/** The first step of the planner (app.py, lines 45-47): for each exam, the
    date texts the user typed are parsed, blank ones skipped, and only the
    dates inside the session window are kept, overwriting the exam's list. */
module Loading {
  import opened Results
  import opened Calendar
  import opened PyText
  import opened DateParser
  import opened Sequences

  /** `d.strip()` is a non-empty string. */
  predicate NotBlank(entry: string) {
    Strip(entry) != []
  }

  /** `[parse_date(d) for d in entries if d.strip()]`: the non-blank entries
      parsed in turn; the first one that does not parse stops it with its error. */
  function ParseEntries(entries: seq<string>): Result<seq<Day>, ParseError> {
    MapAll(Filter(entries, NotBlank), ParseDate)
  }

  /** Blank entries are skipped and nothing else is: the dates are those of the
      non-blank entries, in their order, when all of those parse. */
  lemma ParseEntriesOk(entries: seq<string>)
    ensures ParseEntries(entries).Ok? <==>
      forall e :: e in entries && NotBlank(e) ==> ParseDate(e).Ok?
    ensures var texts := Filter(entries, NotBlank);
      ParseEntries(entries).Ok? ==>
        |ParseEntries(entries).value| == |texts| &&
        forall i :: 0 <= i < |texts| ==> ParseDate(texts[i]) == Ok(ParseEntries(entries).value[i])
  {
    var texts := Filter(entries, NotBlank);
    MapAllOk(texts, ParseDate);
    forall e ensures e in texts <==> e in entries && NotBlank(e) {
      FilterMembers(entries, NotBlank, e);
    }
  }

  /** When some non-blank entry does not parse, the error is that of the
      first such entry. */
  lemma ParseEntriesFirstFailure(entries: seq<string>, i: nat)
    requires var texts := Filter(entries, NotBlank);
      i < |texts| && ParseDate(texts[i]).Err? &&
      forall j :: 0 <= j < i ==> ParseDate(texts[j]).Ok?
    ensures ParseEntries(entries) == Err(ParseDate(Filter(entries, NotBlank)[i]).error)
  {
    MapAllFirstFailure(Filter(entries, NotBlank), ParseDate, i);
  }

  /** `start_date <= d <= end_date`. */
  predicate InSession(start: Day, end: Day, d: Day) {
    Le(start, d) && Le(d, end)
  }

  /** `[d for d in dates if start_date <= d <= end_date]`. */
  function Window(dates: seq<Day>, start: Day, end: Day): seq<Day> {
    Filter(dates, d => InSession(start, end, d))
  }

  /** A date is kept exactly when it was parsed and lies in the session. */
  lemma WindowMembers(dates: seq<Day>, start: Day, end: Day, d: Day)
    ensures d in Window(dates, start, end) <==> d in dates && InSession(start, end, d)
  {
    FilterMembers(dates, d => InSession(start, end, d), d);
  }

  /** The kept dates keep their relative order. */
  lemma WindowOrder(dates: seq<Day>, start: Day, end: Day)
    ensures IsSubsequence(Window(dates, start, end), dates)
  {
    FilterIsSubsequence(dates, d => InSession(start, end, d));
  }

  /** By day numbers: a kept date is no earlier than the start and no later
      than the end of the session. */
  lemma WindowBounds(dates: seq<Day>, start: Day, end: Day, d: Day)
    requires d in Window(dates, start, end)
    ensures Ordinal(start) <= Ordinal(d) <= Ordinal(end)
  {
    WindowMembers(dates, start, end, d);
    LeIffOrdinalLe(start, d);
    LeIffOrdinalLe(d, end);
  }

  /** A session whose start is after its end keeps nothing. */
  lemma WindowEmptySession(dates: seq<Day>, start: Day, end: Day)
    requires !Le(start, end)
    ensures Window(dates, start, end) == []
  {
    var p := d => InSession(start, end, d);
    forall i | 0 <= i < |dates| ensures !p(dates[i]) {
    }
    FilterNone(dates, p);
  }

  /** What lines 46-47 leave in `exam['dates']`, or the error they raise. */
  function Loaded(entries: seq<string>, start: Day, end: Day): Result<seq<Day>, ParseError> {
    match ParseEntries(entries)
    case Err(e) => Err(e)
    case Ok(ds) => Ok(Window(ds, start, end))
  }

  /** Lines 46-47 as a function of one exam's entries. */
  function LoadExam(start: Day, end: Day): seq<string> -> Result<seq<Day>, ParseError> {
    entries => Loaded(entries, start, end)
  }

  /** The loop at line 45 over all exams, in order: the date lists of all
      exams, or the error of the first exam whose entries do not parse. */
  function LoadAll(entries: seq<seq<string>>, start: Day, end: Day): Result<seq<seq<Day>>, ParseError> {
    MapAll(entries, LoadExam(start, end))
  }

  /** Loading succeeds exactly when every exam loads, and then yields each
      exam's own list; otherwise it fails with the first failing exam's error. */
  lemma LoadAllOk(entries: seq<seq<string>>, start: Day, end: Day)
    ensures LoadAll(entries, start, end).Ok? <==>
      forall i :: 0 <= i < |entries| ==> Loaded(entries[i], start, end).Ok?
    ensures LoadAll(entries, start, end).Ok? ==>
      |LoadAll(entries, start, end).value| == |entries| &&
      forall i :: 0 <= i < |entries| ==>
        Loaded(entries[i], start, end) == Ok(LoadAll(entries, start, end).value[i])
  {
    MapAllOk(entries, LoadExam(start, end));
  }

  lemma LoadAllFirstFailure(entries: seq<seq<string>>, start: Day, end: Day, i: nat)
    requires i < |entries| && Loaded(entries[i], start, end).Err?
    requires forall j :: 0 <= j < i ==> Loaded(entries[j], start, end).Ok?
    ensures LoadAll(entries, start, end) == Err(Loaded(entries[i], start, end).error)
  {
    MapAllFirstFailure(entries, LoadExam(start, end), i);
  }

  /** How many exams, counting from the first, load without error: the loop
      at line 45 stops at the exam after them. */
  function LoadedCount(entries: seq<seq<string>>, start: Day, end: Day): (n: nat)
    ensures n <= |entries|
    ensures forall i :: 0 <= i < n ==> Loaded(entries[i], start, end).Ok?
    ensures n < |entries| ==> Loaded(entries[n], start, end).Err?
  {
    CountOk(entries, LoadExam(start, end))
  }

  /** The count is pinned down by where the first failure is. */
  lemma LoadedCountAt(entries: seq<seq<string>>, start: Day, end: Day, n: nat)
    requires n <= |entries|
    requires forall i :: 0 <= i < n ==> Loaded(entries[i], start, end).Ok?
    requires n < |entries| ==> Loaded(entries[n], start, end).Err?
    ensures LoadedCount(entries, start, end) == n
  {
  }

  /** Loading all exams succeeds exactly when every exam loads; otherwise its
      error is that of the exam right after the ones that load. */
  lemma LoadAllCount(entries: seq<seq<string>>, start: Day, end: Day)
    ensures LoadAll(entries, start, end).Ok? <==> LoadedCount(entries, start, end) == |entries|
    ensures var n := LoadedCount(entries, start, end);
      n < |entries| ==> LoadAll(entries, start, end) == Err(Loaded(entries[n], start, end).error)
  {
    MapAllCount(entries, LoadExam(start, end));
  }

  /** An exam of the form: `{'name': ..., 'importance': ..., 'dates': ...}`.
      The texts typed for its dates are `entries`; the planner replaces its
      `dates` by the parsed dates inside the session. */
  class Exam {
    const name: string
    const importance: int
    const entries: seq<string>
    var dates: seq<Day>

    constructor (name: string, importance: int, entries: seq<string>)
      ensures this.name == name && this.importance == importance && this.entries == entries
      ensures dates == []
    {
      this.name := name;
      this.importance := importance;
      this.entries := entries;
      dates := [];
    }

    /** Lines 46-47 for this exam: on a parse error `dates` is left as it was. */
    method LoadDates(start: Day, end: Day) returns (failure: Option<ParseError>)
      modifies this
      ensures Loaded(entries, start, end).Err? ==>
        failure == Some(Loaded(entries, start, end).error) && dates == old(dates)
      ensures Loaded(entries, start, end).Ok? ==>
        failure == None && dates == Loaded(entries, start, end).value
    {
      var parsed := ParseEntries(entries);
      if parsed.Err? {
        return Some(parsed.error);
      }
      dates := parsed.value;
      dates := Window(dates, start, end);
      failure := None;
    }
  }
}
