/** The iCalendar printer: team events as weekly or single entries of one calendar text. */
module Calendar {
  import opened Text
  import opened Wrappers

  const CRLF := "\r\n"
  const U32_MAX: nat := 0xFFFF_FFFF
  const MINUTES_PER_DAY: nat := 1_440
  const MAX_EVENT_DURATION_MINUTES: nat := 1_440

  datatype Event = Event(
    id: string,
    title: string,
    dayOfWeek: nat,
    time: string,
    durationMinutes: nat,
    timezone: string,
    isRecurring: bool,
    teamId: Option<string>)

  function DayToRrule(day: nat): string {
    if day == 1 then "TU" else if day == 2 then "WE" else if day == 3 then "TH"
    else if day == 4 then "FR" else if day == 5 then "SA" else if day == 6 then "SU" else "MO"
  }

  // ------------------------------------------------------------------- The clock

  function DigitOf(c: char): nat
    requires IsDigit(c)
  {
    (c - '0') as nat
  }

  /** Where `c` occurs first. */
  function IndexOf(s: string, c: char): (index: Option<nat>)
    ensures index.Some? ==> index.value < |s| && s[index.value] == c
    ensures forall i :: 0 <= i < (if index.Some? then index.value else |s|) ==> s[i] != c
  {
    if s == [] then None
    else if s[0] == c then Some(0)
    else match IndexOf(s[1..], c)
      case None => None
      case Some(i) => Some(i + 1)
  }

  /** Two digits as a number. */
  function ParseTwo(s: string): Option<nat> {
    if |s| == 2 && IsDigit(s[0]) && IsDigit(s[1]) then Some(DigitOf(s[0]) * 10 + DigitOf(s[1])) else None
  }

  function ParseHhmm(time: string): Option<(nat, nat)> {
    match IndexOf(time, ':')
    case None => None
    case Some(i) =>
      var hour, minute := ParseTwo(time[..i]), ParseTwo(time[i + 1..]);
      if hour.None? || minute.None? || hour.value > 23 || minute.value > 59 then None
      else Some((hour.value, minute.value))
  }

  datatype Instants = Instants(hour: nat, minute: nat, endDay: nat, endHour: nat, endMinute: nat)

  function EventInstants(time: string, durationMinutes: nat): Option<Instants> {
    match ParseHhmm(time)
    case None => None
    case Some((hour, minute)) =>
      var start := hour * 60 + minute;
      var end := start + durationMinutes;
      if end > U32_MAX || end <= start then None
      else
        var day := 1 + end / MINUTES_PER_DAY;
        if day > 31 then None
        else
          var clock := end % MINUTES_PER_DAY;
          Some(Instants(hour, minute, day, clock / 60, clock % 60))
  }

  datatype ScheduleError = Time | Duration | EndsBeforeStart

  function CheckEventSchedule(time: string, durationMinutes: nat): Result<(), ScheduleError> {
    if ParseHhmm(time).None? then Err(Time)
    else if durationMinutes == 0 then Err(EndsBeforeStart)
    else if durationMinutes > MAX_EVENT_DURATION_MINUTES then Err(Duration)
    else if EventInstants(time, durationMinutes).None? then Err(EndsBeforeStart)
    else Ok(())
  }

  // ------------------------------------------------------------------------ Text

  /** What the first character is printed as, and how many characters that stands for: CR LF is one
      line break. */
  function FirstPiece(s: string): (string, nat)
    requires s != ""
    ensures 1 <= FirstPiece(s).1 <= |s|
  {
    if s[0] == '\\' then ("\\\\", 1)
    else if s[0] == ';' then ("\\;", 1)
    else if s[0] == ',' then ("\\,", 1)
    else if s[0] == '\r' then ("\\n", if |s| > 1 && s[1] == '\n' then 2 else 1)
    else if s[0] == '\n' || s[0] == '\U{2028}' || s[0] == '\U{2029}' then ("\\n", 1)
    else if IsControl(s[0]) then ("", 1)
    else ([s[0]], 1)
  }

  /** Every line break becomes an escaped one; other controls are dropped. */
  function EscapeIcal(s: string): string {
    if s == [] then [] else FirstPiece(s).0 + EscapeIcal(s[FirstPiece(s).1..])
  }

  predicate BreaksLine(c: char) {
    IsControl(c) || c == '\U{2028}' || c == '\U{2029}'
  }

  function StripIcalBreaks(s: string): string {
    if s == [] then []
    else (if BreaksLine(s[0]) then [] else [s[0]]) + StripIcalBreaks(s[1..])
  }

  predicate IsZoneChar(c: char) {
    IsAlphanumeric(c) || c == '/' || c == '_' || c == '-' || c == '+'
  }

  function ZoneChars(s: string): string {
    if s == [] then [] else (if IsZoneChar(s[0]) then [s[0]] else []) + ZoneChars(s[1..])
  }

  function SanitizeTzid(tz: string): string {
    if ZoneChars(tz) == "" then "UTC" else ZoneChars(tz)
  }

  // ----------------------------------------------------------------------- Lines

  function DigitChar(n: nat): char
    requires n < 10
  {
    '0' + n as char
  }

  /** A number below 100 in two digits. */
  function Pad2(n: nat): string
    requires n < 100
  {
    [DigitChar(n / 10), DigitChar(n % 10)]
  }

  /** A moment of January 2026. */
  function Stamp(day: nat, hour: nat, minute: nat): string
    requires day < 100 && hour < 100 && minute < 100
  {
    "202601" + Pad2(day) + "T" + Pad2(hour) + Pad2(minute) + "00"
  }

  function Uid(event: Event, host: string): string {
    "event-" + StripIcalBreaks(event.id) + "@" + StripIcalBreaks(host)
  }

  lemma {:induction false} InstantsAreClocks(time: string, durationMinutes: nat)
    ensures EventInstants(time, durationMinutes).Some? ==>
      var t := EventInstants(time, durationMinutes).value;
      t.hour < 24 && t.minute < 60 && t.endDay <= 31 && t.endHour < 24 && t.endMinute < 60
  {
  }

  function UidLine(event: Event, host: string): string {
    "UID:" + Uid(event, host)
  }

  function StartLine(tzid: string, t: Instants): string
    requires t.hour < 24 && t.minute < 60
  {
    "DTSTART;TZID=" + tzid + ":" + Stamp(1, t.hour, t.minute)
  }

  function EndLine(tzid: string, t: Instants): string
    requires t.endDay <= 31 && t.endHour < 24 && t.endMinute < 60
  {
    "DTEND;TZID=" + tzid + ":" + Stamp(t.endDay, t.endHour, t.endMinute)
  }

  function SummaryLine(title: string): string {
    "SUMMARY:" + title
  }

  function RuleLine(day: nat): string {
    "RRULE:FREQ=WEEKLY;BYDAY=" + DayToRrule(day)
  }

  function TeamLine(team: string): string {
    "DESCRIPTION:Team: " + team
  }

  function EventHead(event: Event, host: string, tzid: string, t: Instants): seq<string>
    requires t.hour < 24 && t.minute < 60 && t.endDay <= 31 && t.endHour < 24 && t.endMinute < 60
  {
    ["BEGIN:VEVENT", UidLine(event, host), StartLine(tzid, t), EndLine(tzid, t), SummaryLine(EscapeIcal(event.title))]
  }

  function RuleLines(event: Event): seq<string> {
    if event.isRecurring then [RuleLine(event.dayOfWeek)] else []
  }

  function TeamLines(event: Event): seq<string> {
    if event.teamId.Some? then [TeamLine(EscapeIcal(event.teamId.value))] else []
  }

  /** The content lines of one event, if its clock can be placed. */
  function EventLines(event: Event, host: string): Option<seq<string>> {
    match EventInstants(event.time, event.durationMinutes)
    case None => None
    case Some(t) =>
      InstantsAreClocks(event.time, event.durationMinutes);
      var tzid := SanitizeTzid(event.timezone);
      Some(EventHead(event, host, tzid, t) + RuleLines(event) + TeamLines(event) + ["END:VEVENT"])
  }

  function Concat<T>(items: seq<T>, lines: T -> seq<string>): seq<string> {
    if items == [] then [] else Concat(items[..|items| - 1], lines) + lines(items[|items| - 1])
  }

  function LinesOf(host: string): Event -> seq<string> {
    (event: Event) => LinesIfAny(EventLines(event, host))
  }

  function AllEventLines(events: seq<Event>, host: string): seq<string> {
    Concat(events, LinesOf(host))
  }

  function LinesIfAny(lines: Option<seq<string>>): seq<string> {
    if lines.Some? then lines.value else []
  }

  function Header(name: string): seq<string> {
    ["BEGIN:VCALENDAR", "VERSION:2.0", "PRODID:-//Clan Platform//site-server//EN",
     "X-WR-CALNAME:" + EscapeIcal(name), "CALSCALE:GREGORIAN", "METHOD:PUBLISH"]
  }

  function CalendarLines(events: seq<Event>, host: string, name: string): seq<string> {
    Header(name) + AllEventLines(events, host) + ["END:VCALENDAR"]
  }

  /** Lines as text, each ended by CR LF. */
  function Rendered(lines: seq<string>): string {
    if lines == [] then [] else Rendered(lines[..|lines| - 1]) + lines[|lines| - 1] + CRLF
  }

  // -------------------------------------------------------------------- Printing

  method Escape(s: string) returns (out: string)
    ensures out == EscapeIcal(s)
  {
    out := "";
    var i := 0;
    assert s[0..] == s;
    while i < |s|
      invariant i <= |s|
      invariant out + EscapeIcal(s[i..]) == EscapeIcal(s)
    {
      var c := s[i];
      var piece, next := [c], i + 1;
      if c == '\\' {
        piece := "\\\\";
      } else if c == ';' {
        piece := "\\;";
      } else if c == ',' {
        piece := "\\,";
      } else if c == '\r' {
        if next < |s| && s[next] == '\n' {
          next := next + 1;
        }
        piece := "\\n";
      } else if c == '\n' || c == '\U{2028}' || c == '\U{2029}' {
        piece := "\\n";
      } else if IsControl(c) {
        piece := "";
      }
      EscapeStep(s, i, piece, next);
      out := out + piece;
      i := next;
    }
    assert s[|s|..] == [];
  }

  lemma {:induction false} EscapeStep(s: string, i: nat, piece: string, next: nat)
    requires i < |s| && i < next <= |s|
    requires FirstPiece(s[i..]) == (piece, next - i)
    ensures forall out: string :: out + piece + EscapeIcal(s[next..]) == out + EscapeIcal(s[i..])
  {
    assert s[i..][next - i..] == s[next..];
    forall out: string
      ensures out + piece + EscapeIcal(s[next..]) == out + EscapeIcal(s[i..])
    {
      assert out + piece + EscapeIcal(s[next..]) == out + (piece + EscapeIcal(s[next..]));
    }
  }

  method GenerateVevent(event: Event, host: string) returns (block: Option<string>)
    ensures EventLines(event, host).None? ==> block == None
    ensures EventLines(event, host).Some? ==> block == Some(Rendered(EventLines(event, host).value))
  {
    var instants := EventInstants(event.time, event.durationMinutes);
    if instants.None? {
      return None;
    }
    InstantsAreClocks(event.time, event.durationMinutes);
    var t := instants.value;
    var tzid := SanitizeTzid(event.timezone);
    var vevent := PushHead(event, host, tzid, t);
    ghost var lines := EventHead(event, host, tzid, t);
    if event.isRecurring {
      vevent, lines := PushLine(vevent, lines, RuleLine(event.dayOfWeek));
    }
    assert lines == EventHead(event, host, tzid, t) + RuleLines(event);
    if event.teamId.Some? {
      var team := Escape(event.teamId.value);
      vevent, lines := PushLine(vevent, lines, TeamLine(team));
    }
    assert lines == EventHead(event, host, tzid, t) + RuleLines(event) + TeamLines(event);
    vevent, lines := PushLine(vevent, lines, "END:VEVENT");
    block := Some(vevent);
  }

  /** The lines that every event has. */
  method PushHead(event: Event, host: string, tzid: string, t: Instants) returns (text: string)
    requires t.hour < 24 && t.minute < 60 && t.endDay <= 31 && t.endHour < 24 && t.endMinute < 60
    ensures text == Rendered(EventHead(event, host, tzid, t))
  {
    ghost var lines: seq<string> := [];
    var title := Escape(event.title);
    text := "";
    text, lines := PushLine(text, lines, "BEGIN:VEVENT");
    text, lines := PushLine(text, lines, UidLine(event, host));
    text, lines := PushLine(text, lines, StartLine(tzid, t));
    text, lines := PushLine(text, lines, EndLine(tzid, t));
    text, lines := PushLine(text, lines, SummaryLine(title));
    assert lines == EventHead(event, host, tzid, t);
  }

  /** Append one content line. */
  method PushLine(text: string, ghost lines: seq<string>, line: string) returns (longer: string, ghost more: seq<string>)
    requires text == Rendered(lines)
    ensures more == lines + [line] && longer == Rendered(more)
  {
    more := lines + [line];
    assert more[..|lines|] == lines;
    longer := text + line + CRLF;
  }

  /** The lines before the first event. */
  method PushHeader(name: string) returns (text: string)
    ensures text == Rendered(Header(name))
  {
    ghost var lines: seq<string> := [];
    var calname := Escape(name);
    text := "";
    text, lines := PushLine(text, lines, "BEGIN:VCALENDAR");
    text, lines := PushLine(text, lines, "VERSION:2.0");
    text, lines := PushLine(text, lines, "PRODID:-//Clan Platform//site-server//EN");
    text, lines := PushLine(text, lines, "X-WR-CALNAME:" + calname);
    text, lines := PushLine(text, lines, "CALSCALE:GREGORIAN");
    text, lines := PushLine(text, lines, "METHOD:PUBLISH");
    assert lines == Header(name);
  }

  method GenerateIcal(events: seq<Event>, host: string, name: string) returns (ical: string)
    ensures ical == Rendered(CalendarLines(events, host, name))
  {
    ical := PushHeader(name);
    ghost var header := Header(name);
    ghost var lines := header;
    assert lines == header + AllEventLines(events[..0], host);
    for i := 0 to |events|
      invariant lines == header + AllEventLines(events[..i], host)
      invariant ical == Rendered(lines)
    {
      var block := GenerateVevent(events[i], host);
      ghost var more := LinesIfAny(EventLines(events[i], host));
      NextEventLines(header, events, i, host);
      RenderedConcat(lines, more);
      if block.Some? {
        ical := ical + block.value;
      }
      lines := lines + more;
    }
    assert events[..|events|] == events;
    ical, lines := PushLine(ical, lines, "END:VCALENDAR");
  }

  lemma {:induction false} NextEventLines(header: seq<string>, events: seq<Event>, i: nat, host: string)
    requires i < |events|
    ensures header + AllEventLines(events[..i + 1], host)
         == header + AllEventLines(events[..i], host) + LinesIfAny(EventLines(events[i], host))
  {
    assert events[..i + 1][..i] == events[..i];
    assert LinesOf(host)(events[i]) == LinesIfAny(EventLines(events[i], host));
  }

  lemma {:induction false} RenderedConcat(a: seq<string>, b: seq<string>)
    ensures Rendered(a + b) == Rendered(a) + Rendered(b)
  {
    if b == [] {
      assert a + b == a;
    } else {
      var n := |b| - 1;
      RenderedConcat(a, b[..n]);
      RenderedPush(a + b[..n], b[n]);
      RenderedPush(b[..n], b[n]);
      PushLast(a, b);
      ThreeJoin(Rendered(a), Rendered(b[..n]), b[n] + CRLF);
    }
  }

  lemma {:induction false} PushLast(a: seq<string>, b: seq<string>)
    requires b != []
    ensures a + b[..|b| - 1] + [b[|b| - 1]] == a + b && b[..|b| - 1] + [b[|b| - 1]] == b
  {
  }

  lemma {:induction false} ThreeJoin(a: string, b: string, c: string)
    ensures a + b + c == a + (b + c)
  {
  }

  lemma {:induction false} RenderedPush(lines: seq<string>, line: string)
    ensures Rendered(lines + [line]) == Rendered(lines) + (line + CRLF)
  {
    assert (lines + [line])[..|lines|] == lines;
    assert Rendered(lines) + line + CRLF == Rendered(lines) + (line + CRLF);
  }
}
