/** Reading the printed calendar back: an independent reader, after sections 3.1 and
    3.3.11 of RFC 5545, recovers every placeable event from the text. */
module CalendarReading {
  import opened Calendar
  import opened Text
  import opened Wrappers

  // -------------------------------------------------------------------- The reader

  /** The text between line breaks CR LF, the empty text after the last one included. */
  function SplitCrlf(text: string): seq<string> {
    match FirstCrlf(text)
    case None => [text]
    case Some(i) => [text[..i]] + SplitCrlf(text[i + 2..])
  }

  function FirstCrlf(text: string): (index: Option<nat>)
    ensures index.Some? ==> index.value + 2 <= |text|
  {
    if |text| < 2 then None
    else if text[0] == '\r' && text[1] == '\n' then Some(0)
    else match FirstCrlf(text[1..])
      case None => None
      case Some(i) => Some(i + 1)
  }

  /** A TEXT value; `None` when it is not well-formed. */
  function Unescape(s: string): Option<string> {
    if s == [] then Some([])
    else if s[0] == '\\' then
      if |s| < 2 then None
      else if s[1] == '\\' || s[1] == ';' || s[1] == ',' then Prepend(s[1], Unescape(s[2..]))
      else if s[1] == 'n' || s[1] == 'N' then Prepend('\n', Unescape(s[2..]))
      else None
    else if s[0] == ';' || s[0] == ',' || IsControl(s[0]) then None
    else Prepend(s[0], Unescape(s[1..]))
  }

  function Prepend(c: char, rest: Option<string>): Option<string> {
    match rest
    case None => None
    case Some(s) => Some([c] + s)
  }

  function Strip(prefix: string, line: string): Option<string> {
    if prefix <= line then Some(line[|prefix|..]) else None
  }

  function ReadText(prefix: string, line: string): Option<string> {
    match Strip(prefix, line)
    case None => None
    case Some(value) => Unescape(value)
  }

  /** Minutes since the start of January 2026. */
  function ReadStamp(s: string): Option<nat> {
    if |s| != 15 || s[..6] != "202601" || s[8] != 'T' || s[13..] != "00" then None
    else
      var day, hour, minute := ParseTwo(s[6..8]), ParseTwo(s[9..11]), ParseTwo(s[11..13]);
      if day.None? || hour.None? || minute.None? || !(1 <= day.value <= 31) || hour.value > 23 || minute.value > 59 then None
      else Some((day.value - 1) * 1_440 + hour.value * 60 + minute.value)
  }

  /** A zoned time: the zone name up to the first colon, then the stamp. */
  function ReadTime(prefix: string, line: string): Option<(string, nat)> {
    match Strip(prefix, line)
    case None => None
    case Some(value) =>
      match IndexOf(value, ':')
      case None => None
      case Some(i) =>
        match ReadStamp(value[i + 1..])
        case None => None
        case Some(minutes) => Some((value[..i], minutes))
  }

  /** The value of the next line when it has this prefix, and the lines after it. */
  function ReadOptional(prefix: string, lines: seq<string>): (result: (Option<string>, seq<string>))
    ensures |result.1| <= |lines|
  {
    if lines != [] && prefix <= lines[0] then (Strip(prefix, lines[0]), lines[1..]) else (None, lines)
  }

  datatype VEvent = VEvent(
    uid: string,
    zone: string,
    start: nat,
    end: nat,
    summary: string,
    weeklyOn: Option<string>,
    team: Option<string>)

  datatype VCalendar = VCalendar(name: string, events: seq<VEvent>)

  datatype Head = Head(uid: string, zone: string, start: nat, end: nat, summary: string)

  /** The lines that every event has. */
  function ReadHead(first: string, uidLine: string, startLine: string, endLine: string, summaryLine: string): Option<Head> {
    if first != "BEGIN:VEVENT" then None
    else JoinHead(Strip("UID:", uidLine), ReadTime("DTSTART;TZID=", startLine), ReadTime("DTEND;TZID=", endLine),
                  ReadText("SUMMARY:", summaryLine))
  }

  function JoinHead(uid: Option<string>, start: Option<(string, nat)>, end: Option<(string, nat)>, summary: Option<string>): Option<Head> {
    if uid.None? || start.None? || end.None? || summary.None? || start.value.0 != end.value.0 then None
    else Some(Head(uid.value, start.value.0, start.value.1, end.value.1, summary.value))
  }

  datatype Tail = Tail(weeklyOn: Option<string>, team: Option<string>, rest: seq<string>)

  /** The optional lines, the end line and what follows. */
  function ReadTail(lines: seq<string>): (tail: Option<Tail>)
    ensures tail.Some? ==> |tail.value.rest| < |lines|
  {
    var (rule, afterRule) := ReadOptional("RRULE:FREQ=WEEKLY;BYDAY=", lines);
    var (team, afterTeam) := ReadOptional("DESCRIPTION:Team: ", afterRule);
    if team.Some? && Unescape(team.value).None? then None
    else if afterTeam == [] || afterTeam[0] != "END:VEVENT" then None
    else Some(Tail(rule, if team.Some? then Unescape(team.value) else None, afterTeam[1..]))
  }

  function ReadEvent(lines: seq<string>): (result: Option<(VEvent, seq<string>)>)
    ensures result.Some? ==> |result.value.1| < |lines|
  {
    if |lines| < 5 then None
    else
      var head, tail := ReadHead(lines[0], lines[1], lines[2], lines[3], lines[4]), ReadTail(lines[5..]);
      if head.None? || tail.None? then None
      else
        var h, t := head.value, tail.value;
        Some((VEvent(h.uid, h.zone, h.start, h.end, h.summary, t.weeklyOn, t.team), t.rest))
  }

  function ReadEvents(lines: seq<string>): Option<seq<VEvent>> {
    if lines == END_LINES then Some([])
    else
      match ReadEvent(lines)
      case None => None
      case Some((event, rest)) =>
        match ReadEvents(rest)
        case None => None
        case Some(events) => Some([event] + events)
  }

  function ReadCalendar(text: string): Option<VCalendar> {
    ReadLines(SplitCrlf(text))
  }

  function ReadLines(lines: seq<string>): Option<VCalendar> {
    if |lines| < 6 then None
    else
      var name, events := ReadText("X-WR-CALNAME:", lines[3]), ReadEvents(lines[6..]);
      if lines[0] != "BEGIN:VCALENDAR" || lines[1] != "VERSION:2.0" || lines[2] != "PRODID:-//Clan Platform//site-server//EN"
         || lines[4] != "CALSCALE:GREGORIAN" || lines[5] != "METHOD:PUBLISH" || name.None? || events.None? then None
      else Some(VCalendar(name.value, events.value))
  }

  // -------------------------------------------------------------------- The meaning

  /** Line breaks as one line feed each, other controls gone. */
  function Normalised(s: string): string {
    if s == [] then []
    else if s[0] == '\r' && |s| > 1 && s[1] == '\n' then ['\n'] + Normalised(s[2..])
    else if s[0] in {'\r', '\n', '\U{2028}', '\U{2029}'} then ['\n'] + Normalised(s[1..])
    else if IsControl(s[0]) then Normalised(s[1..])
    else [s[0]] + Normalised(s[1..])
  }

  /** Whether the event's clock can be written: a start of the day and an end in January. */
  predicate Placeable(event: Event) {
    && ParseHhmm(event.time).Some?
    && event.durationMinutes >= 1
    && ParseHhmm(event.time).value.0 * 60 + ParseHhmm(event.time).value.1 + event.durationMinutes < 31 * 1_440
  }

  /** What a reader should find of an event. The end is the start plus the duration. */
  function ViewOf(event: Event, host: string): VEvent
    requires Placeable(event)
  {
    var start := ParseHhmm(event.time).value.0 * 60 + ParseHhmm(event.time).value.1;
    VEvent(
      Uid(event, host),
      SanitizeTzid(event.timezone),
      start,
      start + event.durationMinutes,
      Normalised(event.title),
      if event.isRecurring then Some(DayToRrule(event.dayOfWeek)) else None,
      if event.teamId.Some? then Some(Normalised(event.teamId.value)) else None)
  }

  function Views(events: seq<Event>, host: string): seq<VEvent> {
    if events == [] then []
    else (if Placeable(events[0]) then [ViewOf(events[0], host)] else []) + Views(events[1..], host)
  }

  // ------------------------------------------------------------------ Text round trip

  lemma {:induction false} UnescapeStep(c: char, t: string)
    ensures !IsControl(c) && c != '\\' && c != ';' && c != ',' ==> Unescape([c] + t) == Prepend(c, Unescape(t))
    ensures c == '\\' || c == ';' || c == ',' ==> Unescape(['\\', c] + t) == Prepend(c, Unescape(t))
    ensures Unescape(['\\', 'n'] + t) == Prepend('\n', Unescape(t))
  {
    assert ([c] + t)[1..] == t;
    assert (['\\', c] + t)[2..] == t;
    assert (['\\', 'n'] + t)[2..] == t;
  }

  /** Unescaping undoes escaping, for every text, up to the form of its line breaks. */
  lemma {:induction false} UnescapeUndoesEscape(s: string)
    ensures Unescape(EscapeIcal(s)) == Some(Normalised(s))
  {
    if s != [] {
      var (piece, n) := FirstPiece(s);
      var rest := s[n..];
      UnescapeUndoesEscape(rest);
      UnescapeStep(s[0], EscapeIcal(rest));
      assert "" + EscapeIcal(rest) == EscapeIcal(rest);
    }
  }

  // ------------------------------------------------------------------- Clean lines

  /** No control, CR and LF included, and no Unicode line separator. */
  ghost predicate Clean(s: string) {
    forall i :: 0 <= i < |s| ==> !BreaksLine(s[i])
  }

  lemma {:induction false} EscapeIsClean(s: string)
    ensures Clean(EscapeIcal(s))
  {
    if s != [] {
      EscapeIsClean(s[FirstPiece(s).1..]);
    }
  }

  lemma {:induction false} StripIsClean(s: string)
    ensures Clean(StripIcalBreaks(s))
  {
    if s != [] {
      StripIsClean(s[1..]);
    }
  }

  lemma {:induction false} ZoneIsClean(s: string)
    ensures forall i :: 0 <= i < |ZoneChars(s)| ==> IsZoneChar(ZoneChars(s)[i])
  {
    if s != [] {
      ZoneIsClean(s[1..]);
    }
  }

  lemma {:induction false} ZoneKeeps(s: string)
    ensures forall c :: c in ZoneChars(s) <==> c in s && IsZoneChar(c)
    ensures (forall i :: 0 <= i < |s| ==> IsZoneChar(s[i])) ==> ZoneChars(s) == s
  {
    if s != [] {
      ZoneKeeps(s[1..]);
      assert s == [s[0]] + s[1..];
    }
  }

  lemma {:induction false} ZoneHasNoColon(tz: string)
    ensures Clean(SanitizeTzid(tz)) && NoColon(SanitizeTzid(tz))
  {
    ZoneIsClean(tz);
    var name := SanitizeTzid(tz);
    assert forall i :: 0 <= i < |name| ==> IsZoneChar(name[i]);
  }

  ghost predicate NoColon(s: string) {
    forall i :: 0 <= i < |s| ==> s[i] != ':'
  }

  /** The printed zone has exactly the allowed characters of the given one, and is it when all are
      allowed; when none is, it is UTC. It can stand before a colon on a line. */
  lemma {:induction false} TzidIsName(tz: string)
    ensures SanitizeTzid(tz) != "" && Clean(SanitizeTzid(tz)) && NoColon(SanitizeTzid(tz))
    ensures (exists c :: c in tz && IsZoneChar(c)) ==> forall c :: c in SanitizeTzid(tz) <==> c in tz && IsZoneChar(c)
    ensures !(exists c :: c in tz && IsZoneChar(c)) ==> SanitizeTzid(tz) == "UTC"
    ensures tz != "" && (forall i :: 0 <= i < |tz| ==> IsZoneChar(tz[i])) ==> SanitizeTzid(tz) == tz
  {
    ZoneKeeps(tz);
    var name := SanitizeTzid(tz);
    if ZoneChars(tz) != "" {
      assert ZoneChars(tz)[0] in ZoneChars(tz);
    }
    assert forall i :: 0 <= i < |name| ==> name[i] in name && IsZoneChar(name[i]);
  }

  lemma {:induction false} CleanJoin(a: string, b: string)
    requires Clean(a) && Clean(b)
    ensures Clean(a + b)
  {
  }

  ghost predicate AllClean(lines: seq<string>) {
    forall line :: line in lines ==> Clean(line)
  }

  lemma {:induction false} AllCleanJoin(a: seq<string>, b: seq<string>)
    requires AllClean(a) && AllClean(b)
    ensures AllClean(a + b)
  {
  }

  lemma {:induction false} StampIsClean(day: nat, hour: nat, minute: nat)
    requires day < 100 && hour < 100 && minute < 100
    ensures Clean(Stamp(day, hour, minute)) && |Stamp(day, hour, minute)| == 15
  {
    assert Clean("202601") && Clean("T") && Clean("00");
    assert Clean(Pad2(day)) && Clean(Pad2(hour)) && Clean(Pad2(minute));
  }

  lemma {:induction false} HeaderWordsAreClean()
    ensures Clean("BEGIN:VCALENDAR") && Clean("VERSION:2.0") && Clean("X-WR-CALNAME:")
    ensures Clean("CALSCALE:GREGORIAN") && Clean("METHOD:PUBLISH")
  {
  }

  lemma {:induction false} ProductIsClean()
    ensures Clean("PRODID:-//Clan Platform//site-server//EN") && Clean("END:VCALENDAR") && Clean("END:VEVENT")
  {
  }

  lemma {:induction false} HeaderIsClean(name: string)
    ensures AllClean(Header(name))
  {
    HeaderWordsAreClean();
    ProductIsClean();
    EscapeIsClean(name);
    CleanJoin("X-WR-CALNAME:", EscapeIcal(name));
    SixClean("BEGIN:VCALENDAR", "VERSION:2.0", "PRODID:-//Clan Platform//site-server//EN",
             "X-WR-CALNAME:" + EscapeIcal(name), "CALSCALE:GREGORIAN", "METHOD:PUBLISH");
  }

  lemma {:induction false} SixClean(a: string, b: string, c: string, d: string, e: string, f: string)
    requires Clean(a) && Clean(b) && Clean(c) && Clean(d) && Clean(e) && Clean(f)
    ensures AllClean([a, b, c, d, e, f])
  {
  }

  lemma {:induction false} FiveClean(a: string, b: string, c: string, d: string, e: string)
    requires Clean(a) && Clean(b) && Clean(c) && Clean(d) && Clean(e)
    ensures AllClean([a, b, c, d, e])
  {
  }

  lemma {:induction false} UidIsClean(event: Event, host: string)
    ensures Clean(UidLine(event, host))
  {
    StripIsClean(event.id);
    StripIsClean(host);
    assert Clean("UID:") && Clean("event-") && Clean("@");
  }

  lemma {:induction false} TimesAreClean(tzid: string, t: Instants)
    requires t.hour < 24 && t.minute < 60 && t.endDay <= 31 && t.endHour < 24 && t.endMinute < 60
    requires Clean(tzid)
    ensures Clean(StartLine(tzid, t)) && Clean(EndLine(tzid, t))
  {
    StampIsClean(1, t.hour, t.minute);
    StampIsClean(t.endDay, t.endHour, t.endMinute);
    assert Clean("DTSTART;TZID=") && Clean("DTEND;TZID=") && Clean(":");
  }

  lemma {:induction false} SummaryIsClean(title: string)
    ensures Clean(SummaryLine(EscapeIcal(title)))
  {
    EscapeIsClean(title);
    assert Clean("SUMMARY:");
    CleanJoin("SUMMARY:", EscapeIcal(title));
  }

  lemma {:induction false} HeadIsClean(event: Event, host: string, tzid: string, t: Instants)
    requires t.hour < 24 && t.minute < 60 && t.endDay <= 31 && t.endHour < 24 && t.endMinute < 60
    requires Clean(tzid)
    ensures AllClean(EventHead(event, host, tzid, t))
  {
    UidIsClean(event, host);
    TimesAreClean(tzid, t);
    SummaryIsClean(event.title);
    assert Clean("BEGIN:VEVENT");
    FiveClean("BEGIN:VEVENT", UidLine(event, host), StartLine(tzid, t), EndLine(tzid, t), SummaryLine(EscapeIcal(event.title)));
  }

  lemma {:induction false} TailIsClean(event: Event)
    ensures AllClean(RuleLines(event)) && AllClean(TeamLines(event))
  {
    assert Clean("RRULE:FREQ=WEEKLY;BYDAY=") && Clean("DESCRIPTION:Team: ");
    assert Clean(DayToRrule(event.dayOfWeek));
    if event.teamId.Some? {
      EscapeIsClean(event.teamId.value);
    }
  }

  lemma {:induction false} EventIsClean(event: Event, host: string)
    ensures AllClean(LinesIfAny(EventLines(event, host)))
  {
    if EventLines(event, host).Some? {
      InstantsAreClocks(event.time, event.durationMinutes);
      var t := EventInstants(event.time, event.durationMinutes).value;
      var tzid := SanitizeTzid(event.timezone);
      ZoneHasNoColon(event.timezone);
      HeadIsClean(event, host, tzid, t);
      TailIsClean(event);
      ProductIsClean();
      FourClean(EventHead(event, host, tzid, t), RuleLines(event), TeamLines(event), "END:VEVENT");
    }
  }

  lemma {:induction false} FourClean(a: seq<string>, b: seq<string>, c: seq<string>, last: string)
    requires AllClean(a) && AllClean(b) && AllClean(c) && Clean(last)
    ensures AllClean(a + b + c + [last])
  {
    AllCleanJoin(a, b);
    AllCleanJoin(a + b, c);
    AllCleanJoin(a + b + c, [last]);
  }

  lemma {:induction false} AllAreClean(events: seq<Event>, host: string)
    ensures AllClean(AllEventLines(events, host))
  {
    if events != [] {
      var last := |events| - 1;
      AllAreClean(events[..last], host);
      EventIsClean(events[last], host);
      AllCleanJoin(AllEventLines(events[..last], host), LinesOf(host)(events[last]));
    }
  }

  lemma {:induction false} FirstCrlfAfterLine(line: string, rest: string)
    requires Clean(line)
    ensures FirstCrlf(line + CRLF + rest) == Some(|line|)
  {
    var text := line + CRLF + rest;
    if line == "" {
      assert text[0] == '\r' && text[1] == '\n';
    } else {
      assert text[0] == line[0];
      assert text[1..] == line[1..] + CRLF + rest;
      FirstCrlfAfterLine(line[1..], rest);
    }
  }

  lemma {:induction false} RenderedFirst(lines: seq<string>)
    requires lines != []
    ensures Rendered(lines) == lines[0] + CRLF + Rendered(lines[1..])
  {
    assert lines == [lines[0]] + lines[1..];
    RenderedConcat([lines[0]], lines[1..]);
    assert [lines[0]][..0] == [];
    assert Rendered([lines[0]]) == lines[0] + CRLF;
  }

  lemma {:induction false} SplitLine(line: string, rest: string)
    requires Clean(line)
    ensures SplitCrlf(line + CRLF + rest) == [line] + SplitCrlf(rest)
  {
    FirstCrlfAfterLine(line, rest);
    var text := line + CRLF + rest;
    assert text[..|line|] == line && text[|line| + 2..] == rest;
  }

  /** Splitting undoes rendering: no value starts a line of its own. */
  lemma {:induction false} SplitUndoesRender(lines: seq<string>)
    requires AllClean(lines)
    ensures SplitCrlf(Rendered(lines)) == lines + [""]
  {
    if lines != [] {
      RestIsClean(lines);
      SplitUndoesRender(lines[1..]);
      RenderedFirst(lines);
      SplitLine(lines[0], Rendered(lines[1..]));
      FirstAndRest(lines, [""]);
    }
  }

  lemma {:induction false} RestIsClean(lines: seq<string>)
    requires AllClean(lines) && lines != []
    ensures Clean(lines[0]) && AllClean(lines[1..])
  {
  }

  lemma {:induction false} FirstAndRest(lines: seq<string>, more: seq<string>)
    requires lines != []
    ensures [lines[0]] + (lines[1..] + more) == lines + more
  {
  }

  // -------------------------------------------------------------- Clock round trip

  lemma {:induction false} TwoDigits(n: nat)
    requires n < 100
    ensures ParseTwo(Pad2(n)) == Some(n)
  {
    assert n == n / 10 * 10 + n % 10;
  }

  /** A clock is accepted exactly when it is two digits, a colon and two digits, in range. */
  lemma {:induction false} ClockExactly(time: string, hour: nat, minute: nat)
    requires hour < 100 && minute < 100
    ensures ParseHhmm(time) == Some((hour, minute)) <==>
      time == Pad2(hour) + ":" + Pad2(minute) && hour <= 23 && minute <= 59
  {
    if ParseHhmm(time) == Some((hour, minute)) {
      var i := IndexOf(time, ':').value;
      assert time == time[..i] + ":" + time[i + 1..];
      PadUndoesParse(time[..i], hour);
      PadUndoesParse(time[i + 1..], minute);
    }
    if time == Pad2(hour) + ":" + Pad2(minute) {
      assert time[0] != ':' && time[1] != ':' && time[2] == ':';
      assert IndexOf(time, ':') == Some(2);
      assert time[..2] == Pad2(hour) && time[3..] == Pad2(minute);
      TwoDigits(hour);
      TwoDigits(minute);
    }
  }

  lemma {:induction false} PadUndoesParse(s: string, n: nat)
    requires ParseTwo(s) == Some(n) && n < 100
    ensures s == Pad2(n)
  {
    assert s == [s[0], s[1]];
    assert DigitChar(DigitOf(s[0])) == s[0] && DigitChar(DigitOf(s[1])) == s[1];
  }

  lemma {:induction false} StampReads(day: nat, hour: nat, minute: nat)
    requires 1 <= day <= 31 && hour < 24 && minute < 60
    ensures ReadStamp(Stamp(day, hour, minute)) == Some((day - 1) * 1_440 + hour * 60 + minute)
  {
    var s := Stamp(day, hour, minute);
    assert s[..6] == "202601" && s[6..8] == Pad2(day) && s[8] == 'T';
    assert s[9..11] == Pad2(hour) && s[11..13] == Pad2(minute) && s[13..] == "00";
    TwoDigits(day);
    TwoDigits(hour);
    TwoDigits(minute);
  }

  /** An event is printed exactly when it is placeable, and then the two clocks differ by exactly its
      duration. */
  lemma {:induction false} InstantsExactly(event: Event)
    ensures EventInstants(event.time, event.durationMinutes).Some? <==> Placeable(event)
    ensures Placeable(event) ==>
      var t := EventInstants(event.time, event.durationMinutes).value;
      && (t.hour, t.minute) == ParseHhmm(event.time).value
      && t.hour < 24 && t.minute < 60 && 1 <= t.endDay <= 31 && t.endHour < 24 && t.endMinute < 60
      && (t.endDay - 1) * 1_440 + t.endHour * 60 + t.endMinute - (t.hour * 60 + t.minute) == event.durationMinutes
  {
    if ParseHhmm(event.time).Some? {
      var (hour, minute) := ParseHhmm(event.time).value;
      var end := hour * 60 + minute + event.durationMinutes;
      assert end == end / 1_440 * 1_440 + end % 1_440;
      var clock := end % 1_440;
      assert clock == clock / 60 * 60 + clock % 60;
    }
  }

  /** Every schedule that the API stores is printed. */
  lemma {:induction false} StoredSchedulesArePrinted(event: Event)
    ensures CheckEventSchedule(event.time, event.durationMinutes) == Ok(()) <==>
      ParseHhmm(event.time).Some? && 1 <= event.durationMinutes <= 1_440
    ensures CheckEventSchedule(event.time, event.durationMinutes) == Ok(()) ==> Placeable(event)
  {
    InstantsExactly(event);
  }

  lemma {:induction false} IndexOfColon(name: string, rest: string)
    requires NoColon(name)
    ensures IndexOf(name + ":" + rest, ':') == Some(|name|)
  {
    var text := name + ":" + rest;
    assert text[|name|] == ':';
    assert forall i :: 0 <= i < |name| ==> text[i] == name[i];
  }

  lemma {:induction false} StripsPrefix(prefix: string, value: string)
    ensures Strip(prefix, prefix + value) == Some(value)
  {
    assert (prefix + value)[|prefix|..] == value;
  }

  lemma {:induction false} TimeReads(prefix: string, zone: string, day: nat, hour: nat, minute: nat)
    requires NoColon(zone)
    requires 1 <= day <= 31 && hour < 24 && minute < 60
    ensures ReadTime(prefix, prefix + zone + ":" + Stamp(day, hour, minute))
         == Some((zone, (day - 1) * 1_440 + hour * 60 + minute))
  {
    var stamp := Stamp(day, hour, minute);
    var value := zone + ":" + stamp;
    assert prefix + zone + ":" + stamp == prefix + value;
    StripsPrefix(prefix, value);
    IndexOfColon(zone, stamp);
    assert value[..|zone|] == zone && value[|zone| + 1..] == stamp;
    StampReads(day, hour, minute);
  }

  // -------------------------------------------------------------- Event round trip

  /** The optional lines and the end line, followed by anything. */
  lemma {:induction false} RuleReads(event: Event, rest: seq<string>)
    requires rest != [] && rest[0] != "" && rest[0][0] != 'R'
    ensures ReadOptional("RRULE:FREQ=WEEKLY;BYDAY=", RuleLines(event) + rest)
         == (if event.isRecurring then Some(DayToRrule(event.dayOfWeek)) else None, rest)
  {
    var prefix := "RRULE:FREQ=WEEKLY;BYDAY=";
    assert prefix[0] == 'R';
    if event.isRecurring {
      StripsPrefix(prefix, DayToRrule(event.dayOfWeek));
      assert (RuleLines(event) + rest)[0] == RuleLine(event.dayOfWeek);
      assert (RuleLines(event) + rest)[1..] == rest;
    } else {
      assert RuleLines(event) + rest == rest;
    }
  }

  lemma {:induction false} TeamReads(event: Event, rest: seq<string>)
    requires rest != [] && rest[0] != "" && rest[0][0] != 'D'
    ensures ReadOptional("DESCRIPTION:Team: ", TeamLines(event) + rest)
         == (if event.teamId.Some? then Some(EscapeIcal(event.teamId.value)) else None, rest)
  {
    var prefix := "DESCRIPTION:Team: ";
    assert prefix[0] == 'D';
    if event.teamId.Some? {
      StripsPrefix(prefix, EscapeIcal(event.teamId.value));
      assert (TeamLines(event) + rest)[0] == TeamLine(EscapeIcal(event.teamId.value));
      assert (TeamLines(event) + rest)[1..] == rest;
    } else {
      assert TeamLines(event) + rest == rest;
    }
  }

  function StartMinutes(t: Instants): nat {
    t.hour * 60 + t.minute
  }

  function EndMinutes(t: Instants): nat
    requires t.endDay >= 1
  {
    (t.endDay - 1) * 1_440 + t.endHour * 60 + t.endMinute
  }

  lemma {:induction false} StartReads(zone: string, t: Instants)
    requires NoColon(zone)
    requires t.hour < 24 && t.minute < 60
    ensures ReadTime("DTSTART;TZID=", StartLine(zone, t)) == Some((zone, StartMinutes(t)))
  {
    TimeReads("DTSTART;TZID=", zone, 1, t.hour, t.minute);
  }

  lemma {:induction false} EndReads(zone: string, t: Instants)
    requires NoColon(zone)
    requires 1 <= t.endDay <= 31 && t.endHour < 24 && t.endMinute < 60
    ensures ReadTime("DTEND;TZID=", EndLine(zone, t)) == Some((zone, EndMinutes(t)))
  {
    TimeReads("DTEND;TZID=", zone, t.endDay, t.endHour, t.endMinute);
  }

  lemma {:induction false} TextReads(title: string)
    ensures ReadText("SUMMARY:", SummaryLine(EscapeIcal(title))) == Some(Normalised(title))
  {
    StripsPrefix("SUMMARY:", EscapeIcal(title));
    UnescapeUndoesEscape(title);
  }

  function HeadOf(event: Event, host: string, t: Instants): Head
    requires t.endDay >= 1
  {
    Head(Uid(event, host), SanitizeTzid(event.timezone), StartMinutes(t), EndMinutes(t), Normalised(event.title))
  }

  function TailOf(event: Event, rest: seq<string>): Tail {
    Tail(if event.isRecurring then Some(DayToRrule(event.dayOfWeek)) else None,
         if event.teamId.Some? then Some(Normalised(event.teamId.value)) else None,
         rest)
  }

  lemma {:induction false} ViewIsHeadAndTail(event: Event, host: string, t: Instants, rest: seq<string>)
    requires Placeable(event) && EventInstants(event.time, event.durationMinutes) == Some(t) && t.endDay >= 1
    ensures
      var h, tail := HeadOf(event, host, t), TailOf(event, rest);
      ViewOf(event, host) == VEvent(h.uid, h.zone, h.start, h.end, h.summary, tail.weeklyOn, tail.team)
  {
    InstantsExactly(event);
  }

  lemma {:induction false} UidReads(event: Event, host: string)
    ensures Strip("UID:", UidLine(event, host)) == Some(Uid(event, host))
  {
    StripsPrefix("UID:", Uid(event, host));
  }

  lemma {:induction false} HeadJoins(uidLine: string, startLine: string, endLine: string, summaryLine: string,
      uid: Option<string>, start: Option<(string, nat)>, end: Option<(string, nat)>, summary: Option<string>)
    requires Strip("UID:", uidLine) == uid && ReadText("SUMMARY:", summaryLine) == summary
    requires ReadTime("DTSTART;TZID=", startLine) == start && ReadTime("DTEND;TZID=", endLine) == end
    ensures ReadHead("BEGIN:VEVENT", uidLine, startLine, endLine, summaryLine) == JoinHead(uid, start, end, summary)
  {
  }

  lemma {:induction false} HeadReads(event: Event, host: string, t: Instants)
    requires t.hour < 24 && t.minute < 60 && 1 <= t.endDay <= 31 && t.endHour < 24 && t.endMinute < 60
    ensures
      var zone := SanitizeTzid(event.timezone);
      ReadHead("BEGIN:VEVENT", UidLine(event, host), StartLine(zone, t), EndLine(zone, t), SummaryLine(EscapeIcal(event.title)))
        == Some(HeadOf(event, host, t))
  {
    var zone := SanitizeTzid(event.timezone);
    UidReads(event, host);
    ZoneHasNoColon(event.timezone);
    StartReads(zone, t);
    EndReads(zone, t);
    TextReads(event.title);
    HeadJoins(UidLine(event, host), StartLine(zone, t), EndLine(zone, t), SummaryLine(EscapeIcal(event.title)),
              Some(Uid(event, host)), Some((zone, StartMinutes(t))), Some((zone, EndMinutes(t))), Some(Normalised(event.title)));
  }

  lemma {:induction false} TailReads(event: Event, rest: seq<string>)
    ensures ReadTail(RuleLines(event) + (TeamLines(event) + (["END:VEVENT"] + rest)))
         == Some(TailOf(event, rest))
  {
    var last := ["END:VEVENT"] + rest;
    var team := TeamLines(event) + last;
    assert last[0][0] == 'E' && last[1..] == rest;
    if event.teamId.Some? {
      UnescapeUndoesEscape(event.teamId.value);
      assert team[0] == TeamLine(EscapeIcal(event.teamId.value));
      assert team[0][0] == 'D';
    } else {
      assert team == last;
    }
    RuleReads(event, team);
    TeamReads(event, last);
  }

  /** The same lines, head first. */
  lemma {:induction false} LinesAreHeadAndTail(event: Event, host: string, t: Instants, rest: seq<string>)
    requires EventInstants(event.time, event.durationMinutes) == Some(t)
    requires t.hour < 24 && t.minute < 60 && t.endDay <= 31 && t.endHour < 24 && t.endMinute < 60
    ensures EventLines(event, host).Some?
    ensures EventLines(event, host).value + rest
         == EventHead(event, host, SanitizeTzid(event.timezone), t)
            + (RuleLines(event) + (TeamLines(event) + (["END:VEVENT"] + rest)))
  {
    FourJoin(EventHead(event, host, SanitizeTzid(event.timezone), t), RuleLines(event), TeamLines(event), ["END:VEVENT"], rest);
  }

  lemma {:induction false} HeadAndTailRead(event: Event, host: string, t: Instants, rest: seq<string>)
    requires Placeable(event) && EventInstants(event.time, event.durationMinutes) == Some(t)
    requires t.hour < 24 && t.minute < 60 && 1 <= t.endDay <= 31 && t.endHour < 24 && t.endMinute < 60
    ensures ReadEvent(EventHead(event, host, SanitizeTzid(event.timezone), t)
                      + (RuleLines(event) + (TeamLines(event) + (["END:VEVENT"] + rest))))
         == Some((ViewOf(event, host), rest))
  {
    HeadReads(event, host, t);
    TailReads(event, rest);
    ViewIsHeadAndTail(event, host, t, rest);
    TwoPartsRead(EventHead(event, host, SanitizeTzid(event.timezone), t),
                 RuleLines(event) + (TeamLines(event) + (["END:VEVENT"] + rest)),
                 HeadOf(event, host, t), TailOf(event, rest), ViewOf(event, host));
  }

  lemma {:induction false} EventReads(event: Event, host: string, rest: seq<string>)
    requires Placeable(event)
    ensures EventLines(event, host).Some? && EventLines(event, host).value != []
    ensures EventLines(event, host).value[0] == "BEGIN:VEVENT"
    ensures ReadEvent(EventLines(event, host).value + rest) == Some((ViewOf(event, host), rest))
  {
    InstantsExactly(event);
    var t := EventInstants(event.time, event.durationMinutes).value;
    LinesAreHeadAndTail(event, host, t, rest);
    HeadAndTailRead(event, host, t, rest);
  }

  lemma {:induction false} FourJoin(a: seq<string>, b: seq<string>, c: seq<string>, d: seq<string>, rest: seq<string>)
    ensures a + b + c + d + rest == a + (b + (c + (d + rest)))
  {
  }

  lemma {:induction false} TwoPartsRead(head: seq<string>, tail: seq<string>, h: Head, t: Tail, view: VEvent)
    requires |head| == 5
    requires ReadHead(head[0], head[1], head[2], head[3], head[4]) == Some(h) && ReadTail(tail) == Some(t)
    requires view == VEvent(h.uid, h.zone, h.start, h.end, h.summary, t.weeklyOn, t.team)
    ensures ReadEvent(head + tail) == Some((view, t.rest))
  {
    assert (head + tail)[5..] == tail;
  }

  lemma {:induction false} ConcatFirst<T>(items: seq<T>, lines: T -> seq<string>)
    requires items != []
    ensures Concat(items, lines) == lines(items[0]) + Concat(items[1..], lines)
  {
    var last := |items| - 1;
    if last > 0 {
      ConcatFirst(items[..last], lines);
      assert items[..last][1..] == items[1..][..last - 1];
      assert items[1..][|items[1..]| - 1] == items[last];
    } else {
      assert items[..0] == [] && items[1..] == [];
    }
  }

  const END_LINES: seq<string> := ["END:VCALENDAR", ""]

  lemma {:induction false} NotTheEnd(lines: seq<string>)
    requires lines != [] && lines[0] == "BEGIN:VEVENT"
    ensures lines != END_LINES
  {
    assert lines[0][0] == 'B';
  }

  lemma {:induction false} OneMoreEvent(lines: seq<string>, view: VEvent, rest: seq<string>, views: seq<VEvent>)
    requires lines != END_LINES && ReadEvent(lines) == Some((view, rest)) && ReadEvents(rest) == Some(views)
    ensures ReadEvents(lines) == Some([view] + views)
  {
  }

  lemma {:induction false} NextEventRead(event: Event, host: string, rest: seq<string>, views: seq<VEvent>)
    requires ReadEvents(rest) == Some(views)
    ensures ReadEvents(LinesIfAny(EventLines(event, host)) + rest)
         == Some((if Placeable(event) then [ViewOf(event, host)] else []) + views)
  {
    if Placeable(event) {
      PlacedEventRead(event, host, rest, views);
    } else {
      InstantsExactly(event);
      assert LinesIfAny(EventLines(event, host)) + rest == rest;
      assert [] + views == views;
    }
  }

  lemma {:induction false} PlacedEventRead(event: Event, host: string, rest: seq<string>, views: seq<VEvent>)
    requires Placeable(event) && ReadEvents(rest) == Some(views)
    ensures ReadEvents(LinesIfAny(EventLines(event, host)) + rest) == Some([ViewOf(event, host)] + views)
  {
    EventReads(event, host, rest);
    var lines := EventLines(event, host).value + rest;
    NotTheEnd(lines);
    OneMoreEvent(lines, ViewOf(event, host), rest, views);
  }

  lemma {:induction false} EventsRead(events: seq<Event>, host: string)
    ensures ReadEvents(AllEventLines(events, host) + END_LINES) == Some(Views(events, host))
  {
    if events == [] {
      assert AllEventLines(events, host) + END_LINES == END_LINES;
    } else {
      EventsRead(events[1..], host);
      NextEventRead(events[0], host, AllEventLines(events[1..], host) + END_LINES, Views(events[1..], host));
      FirstEventFirst(events, host);
    }
  }

  lemma {:induction false} JoinThree(a: seq<string>, b: seq<string>, c: seq<string>)
    ensures a + b + c == a + (b + c)
  {
  }

  lemma {:induction false} FirstEventFirst(events: seq<Event>, host: string)
    requires events != []
    ensures AllEventLines(events, host) + END_LINES
         == LinesIfAny(EventLines(events[0], host)) + (AllEventLines(events[1..], host) + END_LINES)
  {
    ConcatFirst(events, LinesOf(host));
    JoinThree(LinesOf(host)(events[0]), AllEventLines(events[1..], host), END_LINES);
  }

  // ------------------------------------------------------------------- Main theorem

  /** Parsing undoes printing: for any events, host and name the reader finds the calendar name and,
      in order, exactly the placeable events. */
  lemma {:induction false} ReadUndoesPrint(events: seq<Event>, host: string, name: string)
    ensures SplitCrlf(Rendered(CalendarLines(events, host, name))) == CalendarLines(events, host, name) + [""]
    ensures ReadCalendar(Rendered(CalendarLines(events, host, name))) == Some(VCalendar(Normalised(name), Views(events, host)))
  {
    CalendarIsClean(events, host, name);
    SplitUndoesRender(CalendarLines(events, host, name));
    assert CalendarLines(events, host, name) + [""] == Header(name) + (AllEventLines(events, host) + END_LINES);
    LinesRead(events, host, name);
  }

  lemma {:induction false} LinesRead(events: seq<Event>, host: string, name: string)
    ensures ReadLines(Header(name) + (AllEventLines(events, host) + END_LINES)) == Some(VCalendar(Normalised(name), Views(events, host)))
  {
    EventsRead(events, host);
    HeaderReads(name, AllEventLines(events, host) + END_LINES, Views(events, host));
  }

  lemma {:induction false} HeaderReads(name: string, rest: seq<string>, views: seq<VEvent>)
    requires ReadEvents(rest) == Some(views)
    ensures ReadLines(Header(name) + rest) == Some(VCalendar(Normalised(name), views))
  {
    NameReads(name);
    SixLinesRead("X-WR-CALNAME:" + EscapeIcal(name), rest, Normalised(name), views);
  }

  lemma {:induction false} SixLinesRead(line: string, rest: seq<string>, name: string, views: seq<VEvent>)
    requires ReadText("X-WR-CALNAME:", line) == Some(name) && ReadEvents(rest) == Some(views)
    ensures
      var header := ["BEGIN:VCALENDAR", "VERSION:2.0", "PRODID:-//Clan Platform//site-server//EN", line,
                     "CALSCALE:GREGORIAN", "METHOD:PUBLISH"];
      ReadLines(header + rest) == Some(VCalendar(name, views))
  {
    var header := ["BEGIN:VCALENDAR", "VERSION:2.0", "PRODID:-//Clan Platform//site-server//EN", line,
                   "CALSCALE:GREGORIAN", "METHOD:PUBLISH"];
    assert (header + rest)[6..] == rest;
  }

  lemma {:induction false} NameReads(name: string)
    ensures ReadText("X-WR-CALNAME:", "X-WR-CALNAME:" + EscapeIcal(name)) == Some(Normalised(name))
  {
    StripsPrefix("X-WR-CALNAME:", EscapeIcal(name));
    UnescapeUndoesEscape(name);
  }

  lemma {:induction false} CalendarIsClean(events: seq<Event>, host: string, name: string)
    ensures AllClean(CalendarLines(events, host, name))
  {
    HeaderIsClean(name);
    AllAreClean(events, host);
    ProductIsClean();
    FourClean(Header(name), [], AllEventLines(events, host), "END:VCALENDAR");
    assert Header(name) + [] == Header(name);
  }

  // ----------------------------------------------------------- What printing loses

  lemma {:induction false} EscapeOfNormalised(s: string)
    ensures EscapeIcal(Normalised(s)) == EscapeIcal(s)
  {
    if s != [] {
      var rest := s[FirstPiece(s).1..];
      EscapeOfNormalised(rest);
      NormalisedStep(s);
    }
  }

  lemma {:induction false} EscapePush(c: char, rest: string)
    requires c != '\r'
    ensures EscapeIcal([c] + rest) == FirstPiece([c]).0 + EscapeIcal(rest)
  {
    assert ([c] + rest)[1..] == rest;
  }

  lemma {:induction false} NormalisedFirst(s: string)
    requires s != ""
    ensures
      var rest := Normalised(s[FirstPiece(s).1..]);
      Normalised(s) ==
        if s[0] in {'\r', '\n', '\U{2028}', '\U{2029}'} then ['\n'] + rest
        else if IsControl(s[0]) then rest
        else [s[0]] + rest
  {
  }

  /** The first piece stays the first piece. */
  lemma {:induction false} NormalisedStep(s: string)
    requires s != ""
    ensures EscapeIcal(Normalised(s)) == FirstPiece(s).0 + EscapeIcal(Normalised(s[FirstPiece(s).1..]))
  {
    NormalisedFirst(s);
    var rest := Normalised(s[FirstPiece(s).1..]);
    if s[0] in {'\r', '\n', '\U{2028}', '\U{2029}'} {
      EscapePush('\n', rest);
    } else if !IsControl(s[0]) {
      EscapePush(s[0], rest);
    }
  }

  lemma {:induction false} SameTextSameEscape(a: string, b: string)
    requires Normalised(a) == Normalised(b)
    ensures EscapeIcal(a) == EscapeIcal(b)
  {
    EscapeOfNormalised(a);
    EscapeOfNormalised(b);
  }

  lemma {:induction false} MinutesAreInstants(t: Instants, u: Instants)
    requires t.hour < 24 && t.minute < 60 && 1 <= t.endDay && t.endHour < 24 && t.endMinute < 60
    requires u.hour < 24 && u.minute < 60 && 1 <= u.endDay && u.endHour < 24 && u.endMinute < 60
    requires StartMinutes(t) == StartMinutes(u) && EndMinutes(t) == EndMinutes(u)
    ensures t == u
  {
  }

  lemma {:induction false} SameInstants(a: Event, b: Event, host: string)
    requires Placeable(a) && Placeable(b) && ViewOf(a, host) == ViewOf(b, host)
    ensures EventInstants(a.time, a.durationMinutes) == EventInstants(b.time, b.durationMinutes)
  {
    InstantsExactly(a);
    InstantsExactly(b);
    MinutesAreInstants(EventInstants(a.time, a.durationMinutes).value, EventInstants(b.time, b.durationMinutes).value);
  }

  lemma {:induction false} SameTail(a: Event, b: Event, host: string)
    requires Placeable(a) && Placeable(b) && ViewOf(a, host) == ViewOf(b, host)
    ensures RuleLines(a) == RuleLines(b) && TeamLines(a) == TeamLines(b)
  {
    if a.teamId.Some? {
      SameTextSameEscape(a.teamId.value, b.teamId.value);
    }
  }

  lemma {:induction false} SameViewSameLines(a: Event, b: Event, host: string)
    requires Placeable(a) && Placeable(b) && ViewOf(a, host) == ViewOf(b, host)
    ensures EventLines(a, host) == EventLines(b, host)
  {
    SameInstants(a, b, host);
    SameTail(a, b, host);
    SameTextSameEscape(a.title, b.title);
    InstantsAreClocks(a.time, a.durationMinutes);
    InstantsAreClocks(b.time, b.durationMinutes);
    var zone := SanitizeTzid(a.timezone);
    assert zone == SanitizeTzid(b.timezone) && Uid(a, host) == Uid(b, host);
  }

  lemma {:induction false} FirstLines(events: seq<Event>, host: string)
    requires events != []
    ensures AllEventLines(events, host) == LinesIfAny(EventLines(events[0], host)) + AllEventLines(events[1..], host)
    ensures !Placeable(events[0]) ==> AllEventLines(events, host) == AllEventLines(events[1..], host)
  {
    ConcatFirst(events, LinesOf(host));
    InstantsExactly(events[0]);
  }

  lemma {:induction false} SameViewsSameLines(a: seq<Event>, b: seq<Event>, host: string)
    requires Views(a, host) == Views(b, host)
    ensures AllEventLines(a, host) == AllEventLines(b, host)
    decreases |a| + |b|
  {
    if a != [] && !Placeable(a[0]) {
      FirstLines(a, host);
      assert Views(a, host) == Views(a[1..], host);
      SameViewsSameLines(a[1..], b, host);
    } else if b != [] && !Placeable(b[0]) {
      FirstLines(b, host);
      assert Views(b, host) == Views(b[1..], host);
      SameViewsSameLines(a, b[1..], host);
    } else if a != [] && b != [] {
      FirstView(a, host);
      FirstView(b, host);
      SameViewsSameLines(a[1..], b[1..], host);
      SameViewSameLines(a[0], b[0], host);
      FirstLines(a, host);
      FirstLines(b, host);
    } else {
      assert a == [] && b == [] by {
        if a != [] { FirstView(a, host); }
        if b != [] { FirstView(b, host); }
      }
    }
  }

  lemma {:induction false} FirstView(events: seq<Event>, host: string)
    requires events != [] && Placeable(events[0])
    ensures Views(events, host) != [] && Views(events, host)[0] == ViewOf(events[0], host)
    ensures Views(events, host)[1..] == Views(events[1..], host)
  {
  }

  /** Exactly what printing loses: two calendars print alike if and only if their names and the views of
      their placeable events agree. */
  lemma {:induction false} PrintsAlikeIff(a: seq<Event>, b: seq<Event>, host: string, name: string, other: string)
    ensures Rendered(CalendarLines(a, host, name)) == Rendered(CalendarLines(b, host, other))
       <==> Normalised(name) == Normalised(other) && Views(a, host) == Views(b, host)
  {
    ReadUndoesPrint(a, host, name);
    ReadUndoesPrint(b, host, other);
    if Normalised(name) == Normalised(other) && Views(a, host) == Views(b, host) {
      SameTextSameEscape(name, other);
      SameViewsSameLines(a, b, host);
    }
  }

  /** Among what is lost is the weekday of an event that does not recur. */
  lemma {:induction false} SingleWeekdayIsLost(event: Event, day: nat, host: string, name: string)
    requires !event.isRecurring
    ensures Rendered(CalendarLines([event], host, name)) == Rendered(CalendarLines([event.(dayOfWeek := day)], host, name))
  {
    var other := event.(dayOfWeek := day);
    assert Placeable(event) <==> Placeable(other);
    assert Placeable(event) ==> ViewOf(event, host) == ViewOf(other, host);
    assert [event][1..] == [] && [other][1..] == [];
    assert Views([event], host) == Views([other], host);
    PrintsAlikeIff([event], [other], host, name, name);
  }

  // ------------------------------------------------------------ Weekdays and ids

  /** Monday is day 0, and also stands in for days that are none. */
  lemma {:induction false} WeekdaysExactly(day: nat)
    ensures day < 7 ==> DayToRrule(day) == ["MO", "TU", "WE", "TH", "FR", "SA", "SU"][day]
    ensures day >= 7 ==> DayToRrule(day) == "MO"
  {
  }

  /** Exactly the controls and the line and paragraph separators are dropped. */
  lemma {:induction false} StripOne(c: char)
    ensures StripIcalBreaks([c]) == if IsControl(c) || c == '\U{2028}' || c == '\U{2029}' then "" else [c]
  {
    assert [c][1..] == [];
  }

  /** Character by character. */
  lemma {:induction false} StripJoins(s: string, more: string)
    ensures StripIcalBreaks(s + more) == StripIcalBreaks(s) + StripIcalBreaks(more)
  {
    if s == [] {
      assert s + more == more;
    } else {
      assert (s + more)[1..] == s[1..] + more;
      StripJoins(s[1..], more);
    }
  }

  lemma {:induction false} StripKeeps(s: string)
    requires Clean(s)
    ensures StripIcalBreaks(s) == s
  {
    if s != [] {
      StripKeeps(s[1..]);
    }
  }

  /** The uid of an event names its id and the host, as they stand when they hold no line break. */
  lemma {:induction false} UidExactly(event: Event, host: string)
    requires Clean(event.id) && Clean(host)
    ensures Uid(event, host) == "event-" + event.id + "@" + host
  {
    StripKeeps(event.id);
    StripKeeps(host);
  }
}
