/** `parse_date` (app.py, lines 8-19): an Italian `"<day> <month name> <year>"` string
    becomes a `datetime` through the table `mesi_italiani` and
    `datetime.strptime(..., "%d-%m-%Y")`.  The strptime step is modelled as
    the regular expression the standard library builds for that format,
    matched with the same backtracking order, followed by the range checks
    of the date constructor. */
module DateParser {
  import opened Results
  import opened Calendar
  import opened PyText

  /** The exceptions `parse_date` can raise. */
  datatype ParseError =
    | IndexOutOfRange               // IndexError: fewer tokens than `parts[i]` reads
    | UnknownMonth(name: string)    // KeyError: the second token is not a month name
    | NoMatch(data: string)         // ValueError: time data does not match format '%d-%m-%Y'
    | UnconvertedData(rest: string) // ValueError: unconverted data remains
    | YearOutOfRange(year: int)     // ValueError from date(): year is out of range
    | DayOutOfRange(day: int)       // ValueError from date(): day is out of range for month

  /** `mesi_italiani`: month name to two-digit month number. */
  const MesiItaliani: map<string, string> := map[
    "gennaio" := "01", "febbraio" := "02", "marzo" := "03", "aprile" := "04",
    "maggio" := "05", "giugno" := "06", "luglio" := "07", "agosto" := "08",
    "settembre" := "09", "ottobre" := "10", "novembre" := "11", "dicembre" := "12"]

  /** The keys of `mesi_italiani`, month 1 first. */
  const MonthNames: seq<string> := [
    "gennaio", "febbraio", "marzo", "aprile", "maggio", "giugno",
    "luglio", "agosto", "settembre", "ottobre", "novembre", "dicembre"]

  // ---------------------------------------------------------------- digits

  predicate IsDigit(c: char) {
    '0' <= c <= '9'
  }

  function DigitValue(c: char): nat {
    if IsDigit(c) then c as int - '0' as int else 0
  }

  /** `int(w)` for the group texts the format's pattern lets through: decimal
      digits, possibly after the one blank that `%d` admits (and `int` skips). */
  function Number(w: string): nat {
    if w == [] then 0 else Number(w[..|w| - 1]) * 10 + DigitValue(w[|w| - 1])
  }

  // ------------------------------------------------- the strptime pattern

  /** One position of a fixed-length alternative: a literal or a character range. */
  datatype Atom = Char(c: char) | Range(lo: char, hi: char)

  type Alternative = seq<Atom>

  predicate AtomMatches(a: Atom, c: char) {
    match a
    case Char(x) => c == x
    case Range(lo, hi) => lo <= c <= hi
  }

  predicate Fits(w: string, alt: Alternative) {
    |w| == |alt| && forall j :: 0 <= j < |w| ==> AtomMatches(alt[j], w[j])
  }

  /** `w` is matched by one of the alternatives of a group. */
  predicate InGroup(w: string, alts: seq<Alternative>) {
    exists alt :: alt in alts && Fits(w, alt)
  }

  const DigitAtom: Atom := Range('0', '9')

  /** `%d`: `3[01]|[12]\d|0[1-9]|[1-9]| [1-9]`, in this order. */
  const DayGroup: seq<Alternative> := [
    [Char('3'), Range('0', '1')], [Range('1', '2'), DigitAtom], [Char('0'), Range('1', '9')],
    [Range('1', '9')], [Char(' '), Range('1', '9')]]

  /** `%m`: `1[0-2]|0[1-9]|[1-9]`. */
  const MonthGroup: seq<Alternative> := [
    [Char('1'), Range('0', '2')], [Char('0'), Range('1', '9')], [Range('1', '9')]]

  /** `%Y`: `\d\d\d\d`. */
  const YearAlternative: Alternative := [DigitAtom, DigitAtom, DigitAtom, DigitAtom]

  const DashGroup: seq<Alternative> := [[Char('-')]]

  /** The whole format `"%d-%m-%Y"`, group by group. */
  const DayMonthYear: seq<seq<Alternative>> :=
    [DayGroup, DashGroup, MonthGroup, DashGroup, [YearAlternative]]

  function Concat(ws: seq<string>): string {
    if ws == [] then [] else ws[0] + Concat(ws[1..])
  }

  lemma {:induction false} ConcatFive(ws: seq<string>)
    requires |ws| == 5
    ensures Concat(ws) == ws[0] + ws[1] + ws[2] + ws[3] + ws[4]
  {
    var t1 := ws[1..];
    var t2 := t1[1..];
    var t3 := t2[1..];
    var t4 := t3[1..];
    assert t4[1..] == [];
    assert Concat(t4) == ws[4];
    assert Concat(t3) == ws[3] + ws[4];
    assert Concat(t2) == ws[2] + (ws[3] + ws[4]);
    assert Concat(t1) == ws[1] + (ws[2] + (ws[3] + ws[4]));
  }

  /** Where `re.match` of the group sequence `groups` at `pos` of `s` ends up:
      the text each group matched, for the first combination of alternatives in
      backtracking order that matches, or `None`. The match need not reach the
      end of `s`. */
  function Search(s: string, pos: nat, groups: seq<seq<Alternative>>): (r: Option<seq<string>>)
    requires pos <= |s|
    ensures r.Some? ==> |r.value| == |groups| && pos + |Concat(r.value)| <= |s|
    ensures r.Some? ==> s[pos..pos + |Concat(r.value)|] == Concat(r.value)
    ensures r.Some? ==> forall i :: 0 <= i < |groups| ==> InGroup(r.value[i], groups[i])
    decreases |groups|, 1, 0
  {
    if groups == [] then Some([]) else TryAlternatives(s, pos, groups[0], groups[1..])
  }

  /** The alternatives `alts` of one group tried in order, each followed by the
      rest of the pattern. */
  function TryAlternatives(s: string, pos: nat, alts: seq<Alternative>, rest: seq<seq<Alternative>>)
    : (r: Option<seq<string>>)
    requires pos <= |s|
    ensures r.Some? ==> |r.value| == |rest| + 1 && pos + |Concat(r.value)| <= |s|
    ensures r.Some? ==> s[pos..pos + |Concat(r.value)|] == Concat(r.value)
    ensures r.Some? ==> InGroup(r.value[0], alts)
    ensures r.Some? ==> forall i :: 0 <= i < |rest| ==> InGroup(r.value[i + 1], rest[i])
    decreases |rest| + 1, 0, |alts|
  {
    if alts == [] then None
    else
      var alt := alts[0];
      var end := pos + |alt|;
      if end <= |s| && Fits(s[pos..end], alt) then
        match Search(s, end, rest)
        case Some(ms) =>
          var w := s[pos..end];
          assert ([w] + ms)[1..] == ms;
          assert s[pos..end + |Concat(ms)|] == w + s[end..end + |Concat(ms)|];
          Some([w] + ms)
        case None => TryAlternatives(s, pos, alts[1..], rest)
      else TryAlternatives(s, pos, alts[1..], rest)
  }

  /** If some choice of group texts matches at `pos`, the search finds a match
      (perhaps an earlier one in backtracking order). */
  lemma {:induction false} SearchFinds(s: string, pos: nat, groups: seq<seq<Alternative>>, ms: seq<string>)
    requires pos <= |s| && |ms| == |groups|
    requires pos + |Concat(ms)| <= |s| && s[pos..pos + |Concat(ms)|] == Concat(ms)
    requires forall i :: 0 <= i < |groups| ==> InGroup(ms[i], groups[i])
    ensures Search(s, pos, groups).Some?
    decreases |groups|, 1, 0
  {
    if groups != [] {
      var alt :| alt in groups[0] && Fits(ms[0], alt);
      TryAlternativesFinds(s, pos, groups[0], groups[1..], ms, alt);
    }
  }

  lemma {:induction false} TryAlternativesFinds(s: string, pos: nat, alts: seq<Alternative>,
                                               rest: seq<seq<Alternative>>, ms: seq<string>, alt: Alternative)
    requires pos <= |s| && |ms| == |rest| + 1
    requires pos + |Concat(ms)| <= |s| && s[pos..pos + |Concat(ms)|] == Concat(ms)
    requires alt in alts && Fits(ms[0], alt)
    requires forall i :: 0 <= i < |rest| ==> InGroup(ms[i + 1], rest[i])
    ensures TryAlternatives(s, pos, alts, rest).Some?
    decreases |rest| + 1, 0, |alts|
  {
    var w, tail := ms[0], ms[1..];
    assert Concat(ms) == w + Concat(tail);
    var end := pos + |w|;
    assert s[pos..end] == w by {
      assert s[pos..pos + |Concat(ms)|][..|w|] == w;
    }
    assert s[end..end + |Concat(tail)|] == Concat(tail) by {
      assert s[pos..pos + |Concat(ms)|][|w|..] == Concat(tail);
    }
    SearchFinds(s, end, rest, tail);
    if alts[0] != alt {
      if !(pos + |alts[0]| <= |s| && Fits(s[pos..pos + |alts[0]|], alts[0]) && Search(s, pos + |alts[0]|, rest).Some?) {
        TryAlternativesFinds(s, pos, alts[1..], rest, ms, alt);
      }
    }
  }

  // --------------------------------------------------- what groups can hold

  lemma NumberShortTexts(w: string)
    ensures |w| == 1 ==> Number(w) == DigitValue(w[0])
    ensures |w| == 2 ==> Number(w) == DigitValue(w[0]) * 10 + DigitValue(w[1])
    ensures |w| == 4 ==> Number(w) == DigitValue(w[0]) * 1000 + DigitValue(w[1]) * 100 + DigitValue(w[2]) * 10 + DigitValue(w[3])
  {
    if |w| == 4 {
      assert w[..3][..2][..1][..0] == [];
    } else if |w| == 2 {
      assert w[..1][..0] == [];
    } else if |w| == 1 {
      assert w[..0] == [];
    }
  }

  /** A `%d` group text holds no `-` and a day number 1..31. */
  lemma {:induction false} DayGroupFacts(w: string)
    requires InGroup(w, DayGroup)
    ensures '-' !in w && 1 <= Number(w) <= 31 && 1 <= |w| <= 2
  {
    var alt :| alt in DayGroup && Fits(w, alt);
    NumberShortTexts(w);
  }

  /** A `%m` group text holds no `-` and a month number 1..12. */
  lemma {:induction false} MonthGroupFacts(w: string)
    requires InGroup(w, MonthGroup)
    ensures '-' !in w && 1 <= Number(w) <= 12 && 1 <= |w| <= 2
  {
    var alt :| alt in MonthGroup && Fits(w, alt);
    NumberShortTexts(w);
  }

  /** A `%Y` group text is four digits, a number below 10000. */
  lemma {:induction false} YearFacts(w: string)
    requires Fits(w, YearAlternative)
    ensures '-' !in w && Number(w) <= 9999 && |w| == 4
  {
    NumberShortTexts(w);
  }

  lemma {:induction false} DashGroupFacts(w: string)
    requires InGroup(w, DashGroup)
    ensures w == "-"
  {
  }

  /** What a successful search for `"%d-%m-%Y"` found. */
  lemma {:induction false} MatchFacts(s: string, ms: seq<string>)
    requires Search(s, 0, DayMonthYear) == Some(ms)
    ensures |ms| == 5 && ms[1] == "-" && ms[3] == "-"
    ensures '-' !in ms[0] && 1 <= Number(ms[0]) <= 31 && 1 <= |ms[0]| <= 2
    ensures '-' !in ms[2] && 1 <= Number(ms[2]) <= 12 && 1 <= |ms[2]| <= 2
    ensures '-' !in ms[4] && Number(ms[4]) <= 9999 && Fits(ms[4], YearAlternative)
    ensures Concat(ms) == ms[0] + "-" + ms[2] + "-" + ms[4] && |Concat(ms)| <= |s|
    ensures s[..|Concat(ms)|] == Concat(ms)
  {
    assert InGroup(ms[0], DayMonthYear[0]);
    DayGroupFacts(ms[0]);
    assert InGroup(ms[1], DayMonthYear[1]);
    DashGroupFacts(ms[1]);
    assert InGroup(ms[2], DayMonthYear[2]);
    MonthGroupFacts(ms[2]);
    assert InGroup(ms[3], DayMonthYear[3]);
    DashGroupFacts(ms[3]);
    assert InGroup(ms[4], DayMonthYear[4]);
    YearFacts(ms[4]);
    ConcatFive(ms);
  }

  /** In `x-y-z` with no `-` inside `x`, `y` or `z`, the dashes are exactly the two separators. */
  lemma {:induction false} DashPositions(x: string, y: string, z: string, i: int)
    requires '-' !in x && '-' !in y && '-' !in z
    requires 0 <= i < |x + "-" + y + "-" + z|
    ensures (x + "-" + y + "-" + z)[i] == '-' <==> i == |x| || i == |x| + 1 + |y|
  {
    var s := x + "-" + y + "-" + z;
    if i < |x| {
      assert s[i] == x[i];
    } else if |x| < i < |x| + 1 + |y| {
      assert s[i] == y[i - |x| - 1];
    } else if i > |x| + 1 + |y| {
      assert s[i] == z[i - |x| - 2 - |y|];
    }
  }

  // -------------------------------------------------------------- strptime

  /** `datetime.strptime(text, "%d-%m-%Y")`: the pattern must match a prefix
      of `text` and then all of it, and the numbers must form a real date. */
  function Strptime(text: string): Result<Day, ParseError> {
    match Search(text, 0, DayMonthYear)
    case None => Err(NoMatch(text))
    case Some(ms) =>
      MatchFacts(text, ms);
      var n := |Concat(ms)|;
      if n < |text| then Err(UnconvertedData(text[n..]))
      else
        var day, month, year := Number(ms[0]), Number(ms[2]), Number(ms[4]);
        if year < MinYear then Err(YearOutOfRange(year))
        else if day > DaysInMonth(year, month) then Err(DayOutOfRange(day))
        else Ok(Date(year, month, day))
  }

  /** `text` is, as a whole, one of the `%d` alternatives. */
  predicate DayToken(text: string) {
    InGroup(text, DayGroup)
  }

  /** `text` is exactly four decimal digits. */
  predicate YearToken(text: string) {
    Fits(text, YearAlternative)
  }

  /** Facts about the values of `mesi_italiani`. */
  lemma {:induction false} MonthCodeFacts(name: string)
    requires name in MesiItaliani
    ensures var code := MesiItaliani[name];
      |code| == 2 && '-' !in code && InGroup(code, MonthGroup) && 1 <= Number(code) <= 12
      && MonthNames[Number(code) - 1] == name
  {
    var code := MesiItaliani[name];
    NumberShortTexts(code);
    if code[0] == '1' {
      assert Fits(code, MonthGroup[0]);
    } else {
      assert Fits(code, MonthGroup[1]);
    }
  }

  /** The month number `mesi_italiani` gives a known month name. */
  function MonthNumber(name: string): (m: int)
    requires name in MesiItaliani
    ensures 1 <= m <= 12 && MonthNames[m - 1] == name
  {
    MonthCodeFacts(name);
    Number(MesiItaliani[name])
  }

  /** The string `parse_date` hands to strptime, split back into its pieces:
      it is accepted exactly when the day and year pieces are a day and a year
      token and the three numbers form a real date. */
  lemma {:induction false} StrptimeOfPieces(day: string, code: string, year: string)
    requires |code| == 2 && '-' !in code && InGroup(code, MonthGroup)
    ensures var r := Strptime(day + "-" + code + "-" + year);
      && (r.Ok? <==> DayToken(day) && YearToken(year)
                     && IsValidDate(Date(Number(year), Number(code), Number(day))))
      && (r.Ok? ==> r.value == Date(Number(year), Number(code), Number(day)))
      && (DayToken(day) && YearToken(year) && Number(year) == 0 ==> r == Err(YearOutOfRange(0)))
      && (DayToken(day) && YearToken(year) && Number(year) >= 1
          && !IsValidDate(Date(Number(year), Number(code), Number(day)))
          ==> r == Err(DayOutOfRange(Number(day))))
  {
    if DayToken(day) && YearToken(year) {
      var ms := GoodPiecesMatch(day, code, year);
      MatchFacts(day + "-" + code + "-" + year, ms);
      MonthGroupFacts(code);
    } else {
      BadPiecesRejected(day, code, year);
    }
  }

  /** With a day token and a year token, the search matches the whole string,
      and its groups are exactly the three pieces. */
  lemma {:induction false} GoodPiecesMatch(day: string, code: string, year: string) returns (ms: seq<string>)
    requires |code| == 2 && '-' !in code && InGroup(code, MonthGroup)
    requires DayToken(day) && YearToken(year)
    ensures Search(day + "-" + code + "-" + year, 0, DayMonthYear) == Some(ms)
    ensures |ms| == 5 && ms[0] == day && ms[2] == code && ms[4] == year
    ensures |Concat(ms)| == |day + "-" + code + "-" + year|
  {
    var s := day + "-" + code + "-" + year;
    DayGroupFacts(day);
    YearFacts(year);
    GoodPiecesFound(day, code, year);
    ms := Search(s, 0, DayMonthYear).value;
    PrefixMatchIsPieces(day, code, year, ms);
  }

  lemma {:induction false} GoodPiecesFound(day: string, code: string, year: string)
    requires InGroup(code, MonthGroup) && DayToken(day) && YearToken(year)
    ensures Search(day + "-" + code + "-" + year, 0, DayMonthYear).Some?
  {
    var s := day + "-" + code + "-" + year;
    var pieces := [day, "-", code, "-", year];
    ConcatFive(pieces);
    assert Concat(pieces) == s;
    assert s[0..|s|] == s;
    assert InGroup("-", DashGroup) by {
      assert Fits("-", DashGroup[0]);
    }
    assert InGroup(year, [YearAlternative]);
    assert forall i :: 0 <= i < 5 ==> InGroup(pieces[i], DayMonthYear[i]);
    SearchFinds(s, 0, DayMonthYear, pieces);
  }

  /** When the pieces hold no `-` and the year piece has four characters, any
      match of the pattern, even one of a prefix, is made of exactly the pieces. */
  lemma {:induction false} PrefixMatchIsPieces(day: string, code: string, year: string, ms: seq<string>)
    requires |code| == 2 && '-' !in code && '-' !in day && '-' !in year && |year| == 4
    requires Search(day + "-" + code + "-" + year, 0, DayMonthYear) == Some(ms)
    ensures |ms| == 5 && ms[0] == day && ms[2] == code && ms[4] == year
    ensures |Concat(ms)| == |day + "-" + code + "-" + year|
  {
    var s := day + "-" + code + "-" + year;
    MatchFacts(s, ms);
    var n := |Concat(ms)|;
    var p1, p2 := |ms[0]|, |ms[0]| + 1 + |ms[2]|;
    var m := ms[0] + "-" + ms[2] + "-" + ms[4];
    DashPositions(ms[0], ms[2], ms[4], p1);
    DashPositions(ms[0], ms[2], ms[4], p2);
    assert s[..n] == m;
    assert s[p1] == '-' && s[p2] == '-' by {
      assert m[p1] == '-' && m[p2] == '-';
      assert s[..n][p1] == s[p1] && s[..n][p2] == s[p2];
    }
    DashPositions(day, code, year, p1);
    DashPositions(day, code, year, p2);
    assert p1 == |day| && p2 == |day| + 3;
    assert s == m;
    assert ms[0] == day by {
      assert s[..p1] == ms[0] && s[..p1] == day;
    }
    assert ms[2] == code by {
      assert s[p1 + 1..p2] == ms[2] && s[p1 + 1..p2] == code;
    }
    assert ms[4] == year by {
      assert s[p2 + 1..] == ms[4] && s[p2 + 1..] == year;
    }
  }

  /** A match of the pattern that covers the whole string is made of the pieces,
      whatever the pieces hold. */
  lemma {:induction false} FullMatchIsPieces(day: string, code: string, year: string, ms: seq<string>)
    requires |code| == 2 && '-' !in code
    requires Search(day + "-" + code + "-" + year, 0, DayMonthYear) == Some(ms)
    requires |Concat(ms)| == |day + "-" + code + "-" + year|
    ensures |ms| == 5 && ms[0] == day && ms[4] == year
  {
    var s := day + "-" + code + "-" + year;
    MatchFacts(s, ms);
    var m := ms[0] + "-" + ms[2] + "-" + ms[4];
    assert s == m;
    var p1, p2 := |ms[0]|, |ms[0]| + 1 + |ms[2]|;
    assert s[|day|] == '-' && s[|day| + 3] == '-';
    DashPositions(ms[0], ms[2], ms[4], |day|);
    DashPositions(ms[0], ms[2], ms[4], |day| + 3);
    assert p1 == |day| && p2 == |day| + 3;
    assert day == ms[0] by {
      assert m[..p1] == ms[0] && s[..p1] == day;
    }
    assert year == ms[4] by {
      assert m[p2 + 1..] == ms[4] && s[p2 + 1..] == year;
    }
  }

  /** Without a day token and a year token, no match covers the whole string. */
  lemma {:induction false} BadPiecesRejected(day: string, code: string, year: string)
    requires |code| == 2 && '-' !in code
    requires !(DayToken(day) && YearToken(year))
    ensures Strptime(day + "-" + code + "-" + year).Err?
  {
    var s := day + "-" + code + "-" + year;
    match Search(s, 0, DayMonthYear)
    case None =>
    case Some(ms) =>
      MatchFacts(s, ms);
      if |Concat(ms)| == |s| {
        FullMatchIsPieces(day, code, year, ms);
        assert false;
      }
  }

  // ------------------------------------------------------------ parse_date

  /** `data_str.lower().strip().split()`. */
  function Tokens(text: string): seq<string> {
    Split(Strip(Lower(text)))
  }

  /** What `parse_date` does with the tokens, with each exception it raises
      as an error value. The tokens are read in the order the source reads
      them: the first, then the month name (looked up at once), then the year. */
  function ParseTokens(parts: seq<string>): Result<Day, ParseError> {
    if |parts| < 2 then Err(IndexOutOfRange)
    else if parts[1] !in MesiItaliani then Err(UnknownMonth(parts[1]))
    else if |parts| < 3 then Err(IndexOutOfRange)
    else Strptime(parts[0] + "-" + MesiItaliani[parts[1]] + "-" + parts[2])
  }

  /** `parse_date(data_str)`. */
  function ParseDate(text: string): Result<Day, ParseError> {
    ParseTokens(Tokens(text))
  }

  // ------------------------------------------------ what parse_date does

  /** When `parse_date` returns a day: exactly when there are at least three
      tokens, the second is a month name, the first and third are a day and a
      year that strptime reads in full, and together they name a real day. That
      day's month is the table's number for the second token. */
  lemma {:induction false} ParseDateSucceeds(text: string)
    ensures var parts, r := Tokens(text), ParseDate(text);
      && (r.Ok? <==>
            |parts| >= 3 && parts[1] in MesiItaliani && DayToken(parts[0]) && YearToken(parts[2])
            && IsValidDate(Date(Number(parts[2]), MonthNumber(parts[1]), Number(parts[0]))))
      && (r.Ok? ==>
            r.value == Date(Number(parts[2]), MonthNumber(parts[1]), Number(parts[0]))
            && 1 <= r.value.month <= 12 && MonthNames[r.value.month - 1] == parts[1])
  {
    var parts := Tokens(text);
    assert ParseDate(text) == ParseTokens(parts);
    if |parts| >= 3 && parts[1] in MesiItaliani {
      ThreeTokens(parts);
    } else {
      MissingTokens(parts);
    }
  }

  lemma {:induction false} MissingTokens(parts: seq<string>)
    requires !(|parts| >= 3 && parts[1] in MesiItaliani)
    ensures ParseTokens(parts).Err?
  {
  }

  /** `StrptimeOfPieces` for the string built from three tokens. */
  lemma {:induction false} ThreeTokens(parts: seq<string>)
    requires |parts| >= 3 && parts[1] in MesiItaliani
    ensures var r := ParseTokens(parts);
      && (r.Ok? <==> DayToken(parts[0]) && YearToken(parts[2])
                     && IsValidDate(Date(Number(parts[2]), MonthNumber(parts[1]), Number(parts[0]))))
      && (r.Ok? ==> r.value == Date(Number(parts[2]), MonthNumber(parts[1]), Number(parts[0])))
      && (DayToken(parts[0]) && YearToken(parts[2]) && Number(parts[2]) == 0 ==> r == Err(YearOutOfRange(0)))
      && (DayToken(parts[0]) && YearToken(parts[2]) && Number(parts[2]) >= 1
          && !IsValidDate(Date(Number(parts[2]), MonthNumber(parts[1]), Number(parts[0])))
          ==> r == Err(DayOutOfRange(Number(parts[0]))))
  {
    var code := MesiItaliani[parts[1]];
    MonthCodeFacts(parts[1]);
    assert ParseTokens(parts) == Strptime(parts[0] + "-" + code + "-" + parts[2]);
    StrptimeOfPieces(parts[0], code, parts[2]);
  }

  /** Which exception `parse_date` raises: an `IndexError` for a missing
      token, a `KeyError` for an unknown month name (even when the year is
      missing too), and for well-formed tokens a `ValueError` from the date
      constructor when the year is 0 or the day is past the end of the month. */
  lemma {:induction false} ParseDateFailures(text: string)
    ensures var parts, r := Tokens(text), ParseDate(text);
      && (|parts| < 2 ==> r == Err(IndexOutOfRange))
      && (|parts| >= 2 && parts[1] !in MesiItaliani ==> r == Err(UnknownMonth(parts[1])))
      && (|parts| == 2 && parts[1] in MesiItaliani ==> r == Err(IndexOutOfRange))
      && (|parts| >= 3 && parts[1] in MesiItaliani && DayToken(parts[0]) && YearToken(parts[2]) ==>
            && (Number(parts[2]) == 0 ==> r == Err(YearOutOfRange(0)))
            && (Number(parts[2]) >= 1 && Number(parts[0]) > DaysInMonth(Number(parts[2]), MonthNumber(parts[1]))
                ==> r == Err(DayOutOfRange(Number(parts[0])))))
  {
    var parts := Tokens(text);
    if |parts| >= 3 && parts[1] in MesiItaliani && DayToken(parts[0]) && YearToken(parts[2]) {
      ThreeTokens(parts);
      DayGroupFacts(parts[0]);
      YearFacts(parts[2]);
    }
  }

  /** Stripping the lower-cased text changes none of its tokens. */
  lemma {:induction false} TokensIgnoreStrip(text: string)
    ensures Tokens(text) == Split(Lower(text))
  {
    SplitOfStrip(Lower(text));
  }

  lemma {:induction false} TokensIgnoreSurroundingSpace(pre: string, text: string, post: string)
    requires AllSpace(pre) && AllSpace(post)
    ensures Tokens(pre + text + post) == Tokens(text)
  {
    var lp, lt, lq := Lower(pre), Lower(text), Lower(post);
    LowerConcat(pre + text, post);
    LowerConcat(pre, text);
    LowerKeepsSpace(pre);
    LowerKeepsSpace(post);
    assert Lower(pre + text + post) == lp + (lt + lq);
    SplitAfterSpace(lp, lt + lq);
    SplitBeforeSpace(lt, lq);
    TokensIgnoreStrip(pre + text + post);
    TokensIgnoreStrip(text);
  }

  /** Whitespace around the text does not change what `parse_date` returns. */
  lemma {:induction false} ParseDateIgnoresSurroundingSpace(pre: string, text: string, post: string)
    requires AllSpace(pre) && AllSpace(post)
    ensures ParseDate(pre + text + post) == ParseDate(text)
  {
    TokensIgnoreSurroundingSpace(pre, text, post);
  }

  /** Two texts that differ only in the case of their letters. */
  predicate SameUpToCase(s: string, t: string) {
    |s| == |t| && forall i :: 0 <= i < |s| ==> LowerChar(s[i]) == LowerChar(t[i])
  }

  /** `parse_date` does not see the case of letters. */
  lemma {:induction false} ParseDateIgnoresCase(s: string, t: string)
    requires SameUpToCase(s, t)
    ensures ParseDate(s) == ParseDate(t)
  {
    assert Lower(s) == Lower(t);
  }

  /** Text that starts with whitespace adds its own tokens after the others. */
  lemma {:induction false} TokensOfAppended(text: string, more: string)
    requires more == [] || IsSpace(more[0])
    ensures Tokens(text + more) == Tokens(text) + Tokens(more)
  {
    var lt, lm := Lower(text), Lower(more);
    LowerConcat(text, more);
    assert lm == [] || IsSpace(lm[0]);
    SplitJoin(lt, lm);
    TokensIgnoreStrip(text);
    TokensIgnoreStrip(more);
    TokensIgnoreStrip(text + more);
  }

  /** Once there are three tokens, text after them that starts with whitespace
      (more tokens, say) does not change what `parse_date` returns. */
  lemma {:induction false} ParseDateIgnoresExtraTokens(text: string, more: string)
    requires |Tokens(text)| >= 3
    requires more == [] || IsSpace(more[0])
    ensures ParseDate(text + more) == ParseDate(text)
  {
    TokensOfAppended(text, more);
    ParseTokensReadsThree(Tokens(text), Tokens(more));
  }

  /** `parse_date` reads no token after the third. */
  lemma {:induction false} ParseTokensReadsThree(a: seq<string>, c: seq<string>)
    requires |a| >= 3
    ensures ParseTokens(a + c) == ParseTokens(a)
  {
    var b := a + c;
    assert b[0] == a[0] && b[1] == a[1] && b[2] == a[2];
  }

  // ------------------------------------------------------- writing a day

  function DigitChar(n: nat): char
    requires n < 10
  {
    ('0' as int + n) as char
  }

  function TwoDigits(n: nat): string
    requires n < 100
  {
    [DigitChar(n / 10), DigitChar(n % 10)]
  }

  function FourDigits(n: nat): string
    requires n < 10000
  {
    TwoDigits(n / 100) + TwoDigits(n % 100)
  }

  /** A day written the way the input fields ask for it, as in "05 luglio 2025". */
  function FormatDate(d: Day): string {
    TwoDigits(d.day) + " " + MonthNames[d.month - 1] + " " + FourDigits(d.year)
  }

  lemma {:induction false} TwoDigitsRoundTrip(n: nat)
    requires n < 100
    ensures Number(TwoDigits(n)) == n
  {
    NumberShortTexts(TwoDigits(n));
  }

  lemma {:induction false} NumberAppendTwo(u: string, v: string)
    requires |v| == 2
    ensures Number(u + v) == Number(u) * 100 + Number(v)
  {
    var w := u + v;
    assert w[..|w| - 1] == u + v[..1];
    assert (u + v[..1])[..|u|] == u;
    NumberShortTexts(v);
  }

  lemma {:induction false} FourDigitsRoundTrip(n: nat)
    requires n < 10000
    ensures Number(FourDigits(n)) == n
  {
    NumberAppendTwo(TwoDigits(n / 100), TwoDigits(n % 100));
    TwoDigitsRoundTrip(n / 100);
    TwoDigitsRoundTrip(n % 100);
  }

  predicate LowerLetters(s: string) {
    forall i :: 0 <= i < |s| ==> 'a' <= s[i] <= 'z'
  }

  /** The value `mesi_italiani` gives the name of month `m` is `m` in two digits. */
  lemma {:induction false} MonthCode(m: int)
    requires 1 <= m <= 12
    ensures MonthNames[m - 1] in MesiItaliani && MesiItaliani[MonthNames[m - 1]] == TwoDigits(m)
  {
    if m <= 6 {
      if m == 1 {} else if m == 2 {} else if m == 3 {} else if m == 4 {} else if m == 5 {} else {}
    } else {
      if m == 7 {} else if m == 8 {} else if m == 9 {} else if m == 10 {} else if m == 11 {} else {}
    }
  }

  /** Every month number names a key of `mesi_italiani` whose value reads back as it. */
  lemma {:induction false} MonthNameRoundTrip(m: int)
    requires 1 <= m <= 12
    ensures MonthNames[m - 1] in MesiItaliani && MonthNumber(MonthNames[m - 1]) == m
    ensures MonthNames[m - 1] != [] && NoSpace(MonthNames[m - 1]) && LowerLetters(MonthNames[m - 1])
  {
    MonthCode(m);
    TwoDigitsRoundTrip(m);
    MonthNameLetters(m);
  }

  lemma {:induction false} MonthNameLetters(m: int)
    requires 1 <= m <= 12
    ensures MonthNames[m - 1] != [] && NoSpace(MonthNames[m - 1]) && LowerLetters(MonthNames[m - 1])
  {
    var name := MonthNames[m - 1];
    assert LowerLetters(name) by {
      if m <= 6 {
        if m == 1 {} else if m == 2 {} else if m == 3 {} else if m == 4 {} else if m == 5 {} else {}
      } else {
        if m == 7 {} else if m == 8 {} else if m == 9 {} else if m == 10 {} else if m == 11 {} else {}
      }
    }
    LowerLettersAreNoSpace(name);
  }

  lemma LowerLettersAreNoSpace(s: string)
    requires LowerLetters(s)
    ensures NoSpace(s)
  {
  }

  /** Three lower-case words joined by blanks are the three tokens. */
  lemma {:induction false} TokensOfWords(a: string, b: string, c: string)
    requires a != [] && b != [] && c != [] && NoSpace(a) && NoSpace(b) && NoSpace(c)
    requires NoCapitals(a + " " + b + " " + c)
    ensures Tokens(a + " " + b + " " + c) == [a, b, c]
  {
    LowerWithoutCapitals(a + " " + b + " " + c);
    TokensIgnoreStrip(a + " " + b + " " + c);
    SplitThreeWords(a, b, c);
  }

  lemma {:induction false} FormatDateTokens(d: Day)
    ensures Tokens(FormatDate(d)) == [TwoDigits(d.day), MonthNames[d.month - 1], FourDigits(d.year)]
  {
    var dd, name, yy := TwoDigits(d.day), MonthNames[d.month - 1], FourDigits(d.year);
    MonthNameRoundTrip(d.month);
    assert NoSpace(dd) && NoSpace(yy);
    assert NoCapitals(FormatDate(d));
    TokensOfWords(dd, name, yy);
  }

  lemma {:induction false} TwoDigitsDayToken(n: nat)
    requires 1 <= n <= 31
    ensures DayToken(TwoDigits(n))
  {
    var dd := TwoDigits(n);
    if n < 10 {
      assert Fits(dd, DayGroup[2]);
    } else if n < 30 {
      assert Fits(dd, DayGroup[1]);
    } else {
      assert Fits(dd, DayGroup[0]);
    }
  }

  /** Writing a day and parsing it back gives the same day. */
  lemma {:induction false} ParseFormatDate(d: Day)
    ensures ParseDate(FormatDate(d)) == Ok(d)
  {
    FormatDateTokens(d);
    ParseFormattedTokens(d);
  }

  lemma {:induction false} ParseFormattedTokens(d: Day)
    ensures ParseTokens([TwoDigits(d.day), MonthNames[d.month - 1], FourDigits(d.year)]) == Ok(d)
  {
    var parts := [TwoDigits(d.day), MonthNames[d.month - 1], FourDigits(d.year)];
    MonthNameRoundTrip(d.month);
    TwoDigitsRoundTrip(d.day);
    FourDigitsRoundTrip(d.year);
    TwoDigitsDayToken(d.day);
    assert YearToken(parts[2]);
    assert Date(Number(parts[2]), MonthNumber(parts[1]), Number(parts[0])) == d;
    ThreeTokens(parts);
  }

  /** The example of the input fields reads as 12 July 2025. */
  lemma {:induction false} ParseDateExampleLuglio(text: string)
    requires text == "12 luglio 2025"
    ensures ParseDate(text) == Ok(Date(2025, 7, 12))
  {
    ExampleTokens(text, "12", "luglio", "2025");
    ExampleLuglioTokens();
  }

  lemma {:induction false} ExampleLuglioTokens()
    ensures ParseTokens(["12", "luglio", "2025"]) == Ok(Date(2025, 7, 12))
  {
    ParseFormattedTokens(Date(2025, 7, 12));
    assert TwoDigits(12) == "12" && TwoDigits(20) + TwoDigits(25) == "2025";
  }

  /** April has no 31st: the date constructor rejects the day. */
  lemma {:induction false} ParseDateExampleAprile(text: string)
    requires text == "31 aprile 2025"
    ensures ParseDate(text) == Err(DayOutOfRange(31))
  {
    ExampleTokens(text, "31", "aprile", "2025");
    ExampleAprileTokens();
  }

  lemma {:induction false} ExampleAprileTokens()
    ensures ParseTokens(["31", "aprile", "2025"]) == Err(DayOutOfRange(31))
  {
    NumberShortTexts("31");
    NumberShortTexts("2025");
    MonthNameRoundTrip(4);
    assert Number("31") == 31 && Number("2025") == 2025 && MonthNumber(MonthNames[3]) == 4;
    assert DayToken("31") by {
      assert Fits("31", DayGroup[0]);
    }
    ThreeTokens(["31", "aprile", "2025"]);
  }

  /** 29 February does not exist in 2025, a common year. */
  lemma {:induction false} ParseDateExampleFebbraio(text: string)
    requires text == "29 febbraio 2025"
    ensures ParseDate(text) == Err(DayOutOfRange(29))
  {
    ExampleTokens(text, "29", "febbraio", "2025");
    ExampleFebbraioTokens();
  }

  lemma {:induction false} ExampleFebbraioTokens()
    ensures ParseTokens(["29", "febbraio", "2025"]) == Err(DayOutOfRange(29))
  {
    NumberShortTexts("29");
    NumberShortTexts("2025");
    MonthNameRoundTrip(2);
    assert Number("29") == 29 && Number("2025") == 2025 && MonthNumber(MonthNames[1]) == 2;
    assert DayToken("29") by {
      assert Fits("29", DayGroup[1]);
    }
    ThreeTokens(["29", "febbraio", "2025"]);
  }

  /** 29 February exists in 2024, a leap year. */
  lemma {:induction false} ParseDateExampleLeapDay(text: string)
    requires text == "29 febbraio 2024"
    ensures ParseDate(text) == Ok(Date(2024, 2, 29))
  {
    ExampleTokens(text, "29", "febbraio", "2024");
    ExampleLeapDayTokens();
  }

  lemma {:induction false} ExampleLeapDayTokens()
    ensures ParseTokens(["29", "febbraio", "2024"]) == Ok(Date(2024, 2, 29))
  {
    ParseFormattedTokens(Date(2024, 2, 29));
    assert TwoDigits(29) == "29" && TwoDigits(20) + TwoDigits(24) == "2024";
  }

  /** A misspelt month is a `KeyError`. */
  lemma {:induction false} ParseDateExampleMisspelt(text: string)
    requires text == "12 luglie 2025"
    ensures ParseDate(text) == Err(UnknownMonth("luglie"))
  {
    ExampleTokens(text, "12", "luglie", "2025");
    ExampleMisspeltTokens();
  }

  lemma {:induction false} ExampleMisspeltTokens()
    ensures ParseTokens(["12", "luglie", "2025"]) == Err(UnknownMonth("luglie"))
  {
    assert "luglie" !in MesiItaliani;
  }

  /** A missing year is an `IndexError`. */
  lemma {:induction false} ParseDateExampleNoYear(text: string)
    requires text == "12 luglio"
    ensures ParseDate(text) == Err(IndexOutOfRange)
  {
    TokensOfTwoWords(text, "12", "luglio");
  }

  lemma {:induction false} TokensOfTwoWords(text: string, a: string, b: string)
    requires text == a + [' '] + b
    requires a != [] && b != [] && NoSpace(a) && NoSpace(b) && NoCapitals(text)
    ensures Tokens(text) == [a, b]
  {
    LowerWithoutCapitals(text);
    TokensIgnoreStrip(text);
    SplitWordThen(a, ' ', b);
    SplitOneWord(b);
  }

  /** Three words written out as one input text. */
  lemma {:induction false} ExampleTokens(text: string, a: string, b: string, c: string)
    requires text == a + " " + b + " " + c
    requires a != [] && b != [] && c != [] && NoSpace(a) && NoSpace(b) && NoSpace(c) && NoCapitals(text)
    ensures ParseDate(text) == ParseTokens([a, b, c])
  {
    TokensOfWords(a, b, c);
  }
}
