/** A set's track list: entries printed one per line, and lines read back into entries. */
module Tracklists {
  import opened Options
  import opened Text

  /** `{ "start_seconds", "artist", "title" }`. */
  datatype Entry = Entry(start: Option<nat>, artist: Option<string>, title: string)

  const START_MAX: nat := 24 * 60 * 60

  // ----- Printing

  function Digit(n: nat): char
    requires n < 10
  {
    ('0' as int + n) as char
  }

  function TwoDigits(n: nat): string
    requires n < 100
  {
    [Digit(n / 10), Digit(n % 10)]
  }

  function Number(n: nat): string
    requires n < 100
  {
    if n < 10 then [Digit(n)] else TwoDigits(n)
  }

  /** `format_track_time`: hours only when there are any. */
  function FormatTime(seconds: nat): string
    requires seconds <= START_MAX
  {
    var hours, rest := seconds / 3600, seconds % 3600;
    var minutes, secs := rest / 60, rest % 60;
    if hours > 0 then Number(hours) + ([':'] + (TwoDigits(minutes) + ([':'] + TwoDigits(secs))))
    else Number(minutes) + ([':'] + TwoDigits(secs))
  }

  function Name(e: Entry): string {
    match e.artist
    case None => e.title
    case Some(artist) => artist + ([' ', '-', ' '] + e.title)
  }

  predicate Startable(e: Entry) {
    e.start.Some? ==> e.start.value <= START_MAX
  }

  function Printed(e: Entry): string
    requires Startable(e)
  {
    match e.start
    case None => Name(e)
    case Some(seconds) => FormatTime(seconds) + ([' '] + Name(e))
  }

  // ----- Reading

  predicate IsDigit(c: char) {
    '0' <= c <= '9'
  }

  function DigitValue(c: char): nat
    requires IsDigit(c)
  {
    c as int - '0' as int
  }

  predicate IsDash(c: char) {
    c == '-' || c == '\U{2013}' || c == '\U{2014}'
  }

  /** What may separate a time from a name. */
  predicate IsSeparator(c: char) {
    IsDash(c) || c == '.' || c == ')'
  }

  function RStrip(s: string): string {
    if s != [] && IsSpace(s[|s| - 1]) then RStrip(s[..|s| - 1]) else s
  }

  function Strip(s: string): string {
    RStrip(LStrip(s))
  }

  /** One or two digits and a colon. */
  function ScanField(s: string): (r: Option<(nat, string)>)
    ensures r.Some? ==> |r.value.1| < |s|
  {
    if |s| >= 2 && IsDigit(s[0]) && s[1] == ':' then Some((DigitValue(s[0]), s[2..]))
    else if |s| >= 3 && IsDigit(s[0]) && IsDigit(s[1]) && s[2] == ':' then
      Some((10 * DigitValue(s[0]) + DigitValue(s[1]), s[3..]))
    else None
  }

  function ScanSeconds(s: string): Option<(nat, string)> {
    if |s| >= 2 && IsDigit(s[0]) && IsDigit(s[1]) then Some((10 * DigitValue(s[0]) + DigitValue(s[1]), s[2..]))
    else None
  }

  /** `(?:\d{1,2}:)?\d{1,2}:\d{2}`, the form with hours first. */
  function ScanTime(s: string): Option<(nat, string)> {
    match ScanField(s)
    case None => None
    case Some((first, rest)) =>
      match ScanHourless(first, rest)
      case Some(time) => Some(time)
      case None =>
        match ScanSeconds(rest)
        case None => None
        case Some((secs, after)) => Some((first * 60 + secs, after))
  }

  function ScanHourless(hours: nat, s: string): Option<(nat, string)> {
    match ScanField(s)
    case None => None
    case Some((minutes, rest)) =>
      match ScanSeconds(rest)
      case None => None
      case Some((secs, after)) => Some(((hours * 60 + minutes) * 60 + secs, after))
  }

  /** The optional time at the start of a line, in brackets or not, with a separator after it
      or not; and the rest of the line. */
  function ScanStart(line: string): (Option<nat>, string) {
    var inside := if line != [] && (line[0] == '[' || line[0] == '(') then line[1..] else line;
    match ScanTime(inside)
    case None => (None, line)
    case Some((seconds, after)) => (Some(seconds), NameAfter(after))
  }

  /** The rest of the line after a closing bracket and a separator, if they are there. */
  function NameAfter(after: string): string {
    var closed := if after != [] && (after[0] == ']' || after[0] == ')') then after[1..] else after;
    var next := LStrip(closed);
    if next != [] && IsSeparator(next[0]) then LStrip(next[1..]) else next
  }

  /** The length of a spaced dash at the start of `s`; 0 if there is none. */
  function SpacedDash(s: string): (n: nat)
    ensures n <= |s|
  {
    var before := SpaceLen(s);
    if before == 0 || before == |s| || !IsDash(s[before]) then 0 else
    var after := SpaceLen(s[before + 1..]);
    if after == 0 then 0 else before + 1 + after
  }

  /** What stands before and after the first spaced dash. */
  function SplitName(s: string): Option<(string, string)> {
    if s == [] then None
    else if SpacedDash(s) > 0 then Some(([], s[SpacedDash(s)..]))
    else
      match SplitName(s[1..])
      case None => None
      case Some((before, after)) => Some(([s[0]] + before, after))
  }

  function Presence(s: string): Option<string> {
    if Blank(s) then None else Some(s)
  }

  /** What is read of a line after the time, if there is any. */
  function FromName(start: Option<nat>, rest: string): Option<Entry> {
    if Blank(rest) then None else
    match SplitName(rest)
    case None => Some(Entry(start, None, Strip(rest)))
    case Some((before, after)) =>
      if Blank(after) then Some(Entry(start, None, Strip(before)))
      else Some(Entry(start, Presence(Strip(before)), Strip(after)))
  }

  function ParseLine(line: string): Option<Entry> {
    var (start, rest) := ScanStart(Strip(line));
    FromName(start, RStrip(rest))
  }

  // ----- The whole list

  function PrintedAll(entries: seq<Entry>): seq<string>
    requires forall e | e in entries :: Startable(e)
    decreases |entries|
  {
    if entries == [] then [] else [Printed(entries[0])] + PrintedAll(entries[1..])
  }

  function ParseAll(lines: seq<string>): seq<Entry>
    decreases |lines|
  {
    if lines == [] then []
    else (if ParseLine(lines[0]).Some? then [ParseLine(lines[0]).value] else []) + ParseAll(lines[1..])
  }

  /** `text.lines`, parsed; a trailing empty line parses to nothing. */
  function ReadText(text: string): seq<Entry> {
    ParseAll(Fields(text, '\n'))
  }

  class BoothSet {
    var tracklist: seq<Entry>

    constructor ()
      ensures tracklist == []
    {
      tracklist := [];
    }

    function TracklistText(): string
      requires forall e | e in tracklist :: Startable(e)
      reads this
    {
      Join(PrintedAll(tracklist), "\n")
    }

    /** `tracklist_text=`; a set's own text changes nothing if its entries survive being printed. */
    method SetTracklistText(text: string)
      modifies this
      ensures tracklist == ReadText(text)
      ensures (forall e | e in old(tracklist) :: Startable(e) && Survives(e)) ==>
                text == old(TracklistText()) ==> tracklist == old(tracklist)
    {
      hide Survives, ReadText;
      if (forall e | e in tracklist :: Startable(e) && Survives(e)) && text == TracklistText() {
        TracklistReadBack(tracklist);
      }
      tracklist := ParseLines(Fields(text, '\n'));
      assert tracklist == ReadText(text) by { ReadTextIs(text); }
    }
  }

  lemma ReadTextIs(text: string)
    ensures ReadText(text) == ParseAll(Fields(text, '\n'))
  {
  }

  /** The lines that parse, parsed, in their order. */
  method ParseLines(lines: seq<string>) returns (entries: seq<Entry>)
    ensures entries == ParseAll(lines)
  {
    hide ParseLine;
    entries := [];
    for i := 0 to |lines|
      invariant entries + ParseAll(lines[i..]) == ParseAll(lines)
    {
      assert lines[i..][0] == lines[i] && lines[i..][1..] == lines[i + 1..];
      var entry := ParseLine(lines[i]);
      if entry.Some? { entries := entries + [entry.value]; }
    }
    assert lines[|lines|..] == [];
  }

  // ----- Trimmed strings

  predicate Trimmed(s: string) {
    s != [] && !IsSpace(s[0]) && !IsSpace(s[|s| - 1])
  }

  lemma TrimmedStrip(s: string)
    requires Trimmed(s)
    ensures Strip(s) == s && RStrip(s) == s && LStrip(s) == s && !Blank(s)
  {
  }

  lemma {:induction false} LStripShorter(s: string)
    ensures |LStrip(s)| <= |s|
  {
    if s != [] && IsSpace(s[0]) { LStripShorter(s[1..]); }
  }

  lemma {:induction false} RStripShorter(s: string)
    ensures |RStrip(s)| <= |s|
    decreases |s|
  {
    if s != [] && IsSpace(s[|s| - 1]) { RStripShorter(s[..|s| - 1]); }
  }

  lemma StripShorter(s: string)
    ensures |Strip(s)| <= |s|
  {
    LStripShorter(s);
    RStripShorter(LStrip(s));
  }

  // ----- Times are read back

  lemma DigitBack(n: nat)
    requires n < 10
    ensures IsDigit(Digit(n)) && DigitValue(Digit(n)) == n && Digit(n) != ':'
  {
  }

  lemma FieldBack(n: nat, tail: string)
    requires n < 100
    ensures ScanField(Number(n) + ([':'] + tail)) == Some((n, tail))
  {
    var s := Number(n) + ([':'] + tail);
    if n < 10 {
      DigitBack(n);
      assert s[2..] == tail;
    } else {
      TwoDigitFieldBack(n, tail);
    }
  }

  lemma TwoDigitFieldBack(n: nat, tail: string)
    requires n < 100
    ensures ScanField(TwoDigits(n) + ([':'] + tail)) == Some((n, tail))
  {
    var s := TwoDigits(n) + ([':'] + tail);
    DigitBack(n / 10);
    DigitBack(n % 10);
    assert s[0] == Digit(n / 10) && s[1] == Digit(n % 10) && s[2] == ':' && s[3..] == tail;
  }

  lemma SecondsBack(n: nat, tail: string)
    requires n < 100
    ensures ScanSeconds(TwoDigits(n) + tail) == Some((n, tail))
    ensures tail != [] && tail[0] != ':' ==> ScanField(TwoDigits(n) + tail) == None
  {
    var s := TwoDigits(n) + tail;
    DigitBack(n / 10);
    DigitBack(n % 10);
    assert s[0] == Digit(n / 10) && s[1] == Digit(n % 10) && s[2..] == tail;
  }

  lemma TimeBack(seconds: nat, tail: string)
    requires seconds <= START_MAX && tail != [] && tail[0] != ':'
    ensures ScanTime(FormatTime(seconds) + tail) == Some((seconds, tail))
    ensures IsDigit((FormatTime(seconds) + tail)[0])
  {
    hide Number, TwoDigits, ScanField, ScanSeconds;
    var hours, rest := seconds / 3600, seconds % 3600;
    var minutes, secs := rest / 60, rest % 60;
    var last := TwoDigits(secs) + tail;
    SecondsBack(secs, tail);
    NumberStarts(hours);
    NumberStarts(minutes);
    if hours > 0 {
      var middle := TwoDigits(minutes) + ([':'] + last);
      FieldBack(hours, middle);
      TwoDigitFieldBack(minutes, last);
      assert FormatTime(seconds) + tail == Number(hours) + ([':'] + middle);
      assert (hours * 60 + minutes) * 60 + secs == seconds;
    } else {
      FieldBack(minutes, last);
      assert FormatTime(seconds) + tail == Number(minutes) + ([':'] + last);
    }
  }

  lemma NumberStarts(n: nat)
    requires n < 100
    ensures Number(n) != [] && IsDigit(Number(n)[0])
  {
  }

  /** A printed time and a space are taken off the name, with a separator the name begins with. */
  lemma StartBack(seconds: nat, name: string)
    requires seconds <= START_MAX && Trimmed(name)
    ensures ScanStart(FormatTime(seconds) + ([' '] + name))
      == (Some(seconds), if IsSeparator(name[0]) then LStrip(name[1..]) else name)
  {
    hide FormatTime, ScanTime;
    var line := FormatTime(seconds) + ([' '] + name);
    TimeBack(seconds, [' '] + name);
    assert line != [] && line[0] != '[' && line[0] != '(';
    assert ([' '] + name)[1..] == name;
    assert SpaceLen([' '] + name) == 1 + SpaceLen(name) == 1;
    assert LStrip([' '] + name) == name;
  }

  // ----- Names are split where they were joined

  lemma {:induction false} SplitShape(s: string)
    requires SplitName(s).Some?
    ensures var (before, after) := SplitName(s).value;
      && |before| + 3 + |after| <= |s|
      && (before != [] ==> !IsSpace(before[|before| - 1]) && before[0] == s[0])
      && (before == [] ==> IsSpace(s[0]))
    decreases |s|
  {
    if SpacedDash(s) == 0 {
      SplitShape(s[1..]);
      assert IsSpace(s[0]) ==> SpaceLen(s) == 1 + SpaceLen(s[1..]);
      assert IsSpace(s[0]) && SpaceLen(s) < |s| ==> s[SpaceLen(s) + 1..] == s[1..][SpaceLen(s[1..]) + 1..];
    }
  }

  /** What is read of a name is never longer than the name. */
  lemma ParsedNameLength(start: Option<nat>, rest: string)
    requires rest == [] || !IsSpace(rest[0])
    ensures FromName(start, rest).Some? ==> |Name(FromName(start, rest).value)| <= |rest|
  {
    StripShorter(rest);
    if SplitName(rest).Some? {
      SplitShape(rest);
      var (before, after) := SplitName(rest).value;
      StripShorter(before);
      StripShorter(after);
    }
  }

  lemma ParseLineIs(line: string)
    ensures var (start, rest) := ScanStart(Strip(line)); ParseLine(line) == FromName(start, RStrip(rest))
  {
  }

  ghost predicate Sane(e: Entry) {
    && Trimmed(e.title)
    && (e.artist.Some? ==> Trimmed(e.artist.value))
    && Startable(e)
  }

  lemma NameTrimmed(e: Entry)
    requires Sane(e)
    ensures Trimmed(Name(e))
  {
  }

  /** Where the name is split: between artist and title, or nowhere. */
  predicate SplitsAtJoint(e: Entry) {
    SplitName(Name(e)) == if e.artist.None? then None else Some((e.artist.value, e.title))
  }

  /** A dash at `j`, with nothing but whitespace from `i` up to it and some after it. */
  predicate SpacedDashAt(s: string, i: nat, j: nat) {
    i < j && j + 1 < |s| && IsDash(s[j]) && IsSpace(s[j + 1]) && forall k | i <= k < j :: IsSpace(s[k])
  }

  ghost predicate DashStartsAt(s: string, i: nat) {
    exists j: nat :: SpacedDashAt(s, i, j)
  }

  /** No spaced dash starts inside the artist, or inside the title if there is no artist. */
  ghost predicate FirstDashIsJoint(e: Entry) {
    forall i | 0 <= i < |if e.artist.Some? then e.artist.value else e.title| :: !DashStartsAt(Name(e), i)
  }

  predicate DigitsFirst(s: string, n: nat) {
    n <= |s| && forall k | 0 <= k < n :: IsDigit(s[k])
  }

  /** So many digits and a colon. */
  predicate FieldFirst(s: string, n: nat) {
    DigitsFirst(s, n) && n < |s| && s[n] == ':'
  }

  /** Minutes, in one digit or two, and seconds, in two. */
  predicate ClockFirst(s: string) {
    (FieldFirst(s, 1) && DigitsFirst(s[2..], 2)) || (FieldFirst(s, 2) && DigitsFirst(s[3..], 2))
  }

  /** The same, or the same after hours. */
  predicate TimeFirst(s: string) {
    ClockFirst(s) || (FieldFirst(s, 1) && ClockFirst(s[2..])) || (FieldFirst(s, 2) && ClockFirst(s[3..]))
  }

  /** A name without a start does not begin with a time, in a bracket or not; one with a start
      does not begin with a separator. */
  predicate NameClearOfTime(e: Entry) {
    var name := Name(e);
    if e.start.Some? then name == [] || !IsSeparator(name[0])
    else !TimeFirst(if name != [] && (name[0] == '[' || name[0] == '(') then name[1..] else name)
  }

  lemma ScanFieldIff(s: string)
    ensures ScanField(s).Some? <==> FieldFirst(s, 1) || FieldFirst(s, 2)
    ensures FieldFirst(s, 1) ==> ScanField(s).value.1 == s[2..]
    ensures FieldFirst(s, 2) ==> ScanField(s).value.1 == s[3..]
  {
  }

  lemma ScanSecondsIff(s: string)
    ensures ScanSeconds(s).Some? <==> DigitsFirst(s, 2)
  {
  }

  lemma ScanHourlessIff(hours: nat, s: string)
    ensures ScanHourless(hours, s).Some? <==> ClockFirst(s)
  {
    ScanFieldIff(s);
    if ScanField(s).Some? { ScanSecondsIff(ScanField(s).value.1); }
    hide ScanField, ScanSeconds, DigitsFirst;
  }

  lemma ScanTimeIff(s: string)
    ensures ScanTime(s).Some? <==> TimeFirst(s)
  {
    ScanFieldIff(s);
    if ScanField(s).Some? {
      var (first, rest) := ScanField(s).value;
      ScanHourlessIff(first, rest);
      ScanSecondsIff(rest);
    }
    hide ScanField, ScanSeconds, ScanHourless, DigitsFirst;
  }

  /** Whether a time is read off the start of the printed name. */
  lemma StartReadIff(e: Entry)
    requires e.start.None?
    ensures ScanStart(Name(e)).0.None? <==> NameClearOfTime(e)
  {
    var name := Name(e);
    ScanTimeIff(if name != [] && (name[0] == '[' || name[0] == '(') then name[1..] else name);
    hide ScanTime, TimeFirst, Name;
  }

  lemma {:induction false} SpaceLenRun(s: string)
    ensures forall k | 0 <= k < SpaceLen(s) :: IsSpace(s[k])
    ensures SpaceLen(s) < |s| ==> !IsSpace(s[SpaceLen(s)])
  {
    if s != [] && IsSpace(s[0]) {
      SpaceLenRun(s[1..]);
      forall k | 0 <= k < SpaceLen(s) ensures IsSpace(s[k]) {
        if 0 < k { assert s[k] == s[1..][k - 1]; }
      }
    }
  }

  lemma SpacedDashIff(s: string, i: nat)
    requires i <= |s|
    ensures SpacedDash(s[i..]) > 0 <==> DashStartsAt(s, i)
  {
    var t := s[i..];
    var n := SpaceLen(t);
    SpaceLenRun(t);
    if SpacedDash(t) > 0 {
      assert IsDash(s[i + n]) && IsSpace(t[n + 1..][0]);
      forall k | i <= k < i + n ensures IsSpace(s[k]) { assert s[k] == t[k - i]; }
      assert SpacedDashAt(s, i, i + n);
    }
    if DashStartsAt(s, i) {
      var j: nat :| SpacedDashAt(s, i, j);
      assert t[j - i] == s[j] && !IsSpace(t[j - i]);
      assert n == j - i;
      assert t[n + 1..][0] == s[j + 1];
    }
  }

  /** A name is split at its first spaced dash. */
  lemma {:induction false} SplitsAtFirst(s: string, n: nat)
    requires n <= |s| && forall i | 0 <= i < n :: SpacedDash(s[i..]) == 0
    ensures n < |s| && SpacedDash(s[n..]) > 0 ==> SplitName(s) == Some((s[..n], s[n..][SpacedDash(s[n..])..]))
    ensures n == |s| ==> SplitName(s) == None
    decreases |s|
  {
    hide SpacedDash;
    if n == 0 {
      assert s[0..] == s;
    } else {
      assert s[0..] == s;
      forall i | 0 <= i < n - 1 ensures SpacedDash(s[1..][i..]) == 0 { assert s[1..][i..] == s[i + 1..]; }
      SplitsAtFirst(s[1..], n - 1);
      assert s[1..][n - 1..] == s[n..];
      assert [s[0]] + s[1..][..n - 1] == s[..n];
    }
  }

  lemma {:induction false} NoneBeforeSplit(s: string)
    ensures SplitName(s).Some? ==> |SplitName(s).value.0| <= |s|
    ensures var n := if SplitName(s).Some? then |SplitName(s).value.0| else |s|;
      forall i | 0 <= i < n <= |s| :: SpacedDash(s[i..]) == 0
    decreases |s|
  {
    hide SpacedDash;
    if s != [] && SpacedDash(s) == 0 {
      NoneBeforeSplit(s[1..]);
      assert s[0..] == s;
      var n := if SplitName(s).Some? then |SplitName(s).value.0| else |s|;
      forall i | 0 <= i < n <= |s| ensures SpacedDash(s[i..]) == 0 {
        if 0 < i { assert s[i..] == s[1..][i - 1..]; }
      }
    }
  }

  lemma SplitsAtJointIff(e: Entry)
    requires Sane(e)
    ensures SplitsAtJoint(e) <==> FirstDashIsJoint(e)
  {
    var name := Name(e);
    var n := if e.artist.Some? then |e.artist.value| else |e.title|;
    forall i | 0 <= i <= |name| ensures SpacedDash(name[i..]) > 0 <==> DashStartsAt(name, i) { SpacedDashIff(name, i); }
    hide SpacedDash, DashStartsAt;
    NoneBeforeSplit(name);
    if FirstDashIsJoint(e) {
      SplitsAtFirst(name, n);
      if e.artist.Some? {
        assert name[n..] == [' ', '-', ' '] + e.title && name[..n] == e.artist.value;
        JointDash(e.title);
      }
    }
  }

  lemma SplitTrimmed(name: string)
    requires Trimmed(name) && SplitName(name).Some?
    ensures var (before, after) := SplitName(name).value; Trimmed(before) && |before| + |after| < |name|
  {
    SplitShape(name);
    hide SplitName;
  }

  lemma FromNameParts(start: Option<nat>, name: string)
    requires Trimmed(name)
    ensures SplitName(name).None? ==> FromName(start, name) == Some(Entry(start, None, name))
    ensures SplitName(name).Some? ==>
      var (before, after) := SplitName(name).value;
      && Trimmed(before) && |before| + |after| < |name|
      && FromName(start, name)
           == Some(if Blank(after) then Entry(start, None, before) else Entry(start, Some(before), Strip(after)))
  {
    hide SplitName, Strip, RStrip, LStrip, Trimmed, Blank;
    TrimmedStrip(name);
    if SplitName(name).Some? {
      SplitTrimmed(name);
      TrimmedStrip(SplitName(name).value.0);
    }
  }

  lemma NameReadBackIff(e: Entry)
    requires Sane(e)
    ensures FromName(e.start, Name(e)) == Some(e) <==> SplitsAtJoint(e)
  {
    NameTrimmed(e);
    FromNameParts(e.start, Name(e));
    NameLength(e);
    TrimmedStrip(e.title);
    if SplitName(Name(e)).Some? {
      var (before, after) := SplitName(Name(e)).value;
      StripShorter(after);
      if e.artist.Some? { JointTitle(e); }
    }
    hide FromName, SplitName, Name, Strip, RStrip, LStrip, Trimmed;
  }

  lemma NameLength(e: Entry)
    requires Trimmed(e.title)
    ensures e.artist.None? ==> Name(e) == e.title
    ensures e.artist.Some? ==> |e.title| < |Name(e)|
  {
  }

  /** If the name is split right after the artist, what follows is the title. */
  lemma JointTitle(e: Entry)
    requires Sane(e) && e.artist.Some? && SplitName(Name(e)).Some?
    ensures SplitName(Name(e)).value.0 == e.artist.value ==> SplitName(Name(e)).value.1 == e.title
  {
    var artist := e.artist.value;
    if SplitName(Name(e)).value.0 == artist {
      SplitRest(Name(e));
      assert Name(e)[|artist|..] == [' ', '-', ' '] + e.title;
      JointDash(e.title);
    }
  }

  lemma JointDash(title: string)
    requires Trimmed(title)
    ensures SpacedDash([' ', '-', ' '] + title) == 3 && ([' ', '-', ' '] + title)[3..] == title
  {
    var s := [' ', '-', ' '] + title;
    assert s[1..][0] == '-' && s[2..] == [' '] + title && s[2..][1..] == title;
    assert SpaceLen(s) == 1 && SpaceLen(s[2..]) == 1;
  }

  lemma {:induction false} SplitRest(s: string)
    requires SplitName(s).Some?
    ensures var (before, after) := SplitName(s).value;
      |before| <= |s| && SpacedDash(s[|before|..]) > 0 && after == s[|before|..][SpacedDash(s[|before|..])..]
    decreases |s|
  {
    if SpacedDash(s) == 0 {
      SplitRest(s[1..]);
      var (before, after) := SplitName(s[1..]).value;
      assert s[1 + |before|..] == s[1..][|before|..];
    } else {
      assert s[0..] == s;
    }
  }

  /** A printed entry is read back as itself if and only if its name is clear of times and its
      first spaced dash is the one that joins artist and title. */
  lemma LineReadBackIff(e: Entry)
    requires Sane(e)
    ensures ParseLine(Printed(e)) == Some(e) <==> NameClearOfTime(e) && FirstDashIsJoint(e)
  {
    hide ParseLine, FromName, ScanStart, FormatTime, SplitName, Strip, RStrip;
    var name := Name(e);
    NameTrimmed(e);
    TrimmedStrip(name);
    NameReadBackIff(e);
    SplitsAtJointIff(e);
    ParseLineIs(Printed(e));
    match e.start
    case None =>
      StartReadIff(e);
      ScanStartNone(name);
      FromNameStart(ScanStart(name).0, RStrip(ScanStart(name).1));
    case Some(seconds) =>
      StartBack(seconds, name);
      PrintedTrimmed(e);
      TrimmedStrip(Printed(e));
      if IsSeparator(name[0]) {
        var rest := LStrip(name[1..]);
        LStripShorter(name[1..]);
        RStripShorter(rest);
        LStripStarts(name[1..]);
        RStripStarts(rest);
        ParsedNameLength(e.start, RStrip(rest));
      }
  }

  lemma ScanStartNone(line: string)
    ensures ScanStart(line).0.None? ==> ScanStart(line).1 == line
  {
  }

  lemma FromNameStart(start: Option<nat>, rest: string)
    ensures FromName(start, rest).Some? ==> FromName(start, rest).value.start == start
  {
  }

  lemma {:induction false} LStripStarts(s: string)
    ensures LStrip(s) == [] || !IsSpace(LStrip(s)[0])
  {
    if s != [] && IsSpace(s[0]) { LStripStarts(s[1..]); }
  }

  lemma {:induction false} RStripStarts(s: string)
    requires s == [] || !IsSpace(s[0])
    ensures RStrip(s) == [] || !IsSpace(RStrip(s)[0])
    decreases |s|
  {
    if s != [] && IsSpace(s[|s| - 1]) { RStripStarts(s[..|s| - 1]); }
  }

  lemma PrintedTrimmed(e: Entry)
    requires Sane(e)
    ensures Trimmed(Printed(e))
  {
    NameTrimmed(e);
    if e.start.Some? {
      TimeBack(e.start.value, [' '] + Name(e));
    }
  }

  // ----- Whole lists

  /** What an entry needs to survive a list: to survive its line, and to be one line. */
  ghost predicate Survives(e: Entry) {
    && Startable(e) && Sane(e) && NameClearOfTime(e) && FirstDashIsJoint(e)
    && '\n' !in e.title && (e.artist.Some? ==> '\n' !in e.artist.value)
  }

  lemma TimeIsOneLine(seconds: nat)
    requires seconds <= START_MAX
    ensures '\n' !in FormatTime(seconds)
  {
  }

  lemma PrintedIsOneLine(e: Entry)
    requires Survives(e)
    ensures '\n' !in Printed(e)
  {
    hide FormatTime, NameClearOfTime, FirstDashIsJoint;
    assert '\n' !in Name(e);
    if e.start.Some? { TimeIsOneLine(e.start.value); }
  }

  lemma {:induction false} ParsePrintedAll(entries: seq<Entry>)
    requires forall e | e in entries :: Startable(e) && Survives(e)
    ensures |PrintedAll(entries)| == |entries| && forall line | line in PrintedAll(entries) :: '\n' !in line
    ensures ParseAll(PrintedAll(entries)) == entries
    decreases |entries|
  {
    hide ParseLine, NameClearOfTime, FirstDashIsJoint, Sane, Printed;
    if entries != [] {
      assert entries[0] in entries;
      SurvivorReadBack(entries[0]);
      ParsePrintedAll(entries[1..]);
      var lines := PrintedAll(entries);
      assert lines[0] == Printed(entries[0]) && lines[1..] == PrintedAll(entries[1..]);
      assert entries == [entries[0]] + entries[1..];
    }
  }

  lemma SurvivorReadBack(e: Entry)
    requires Survives(e)
    ensures ParseLine(Printed(e)) == Some(e) && '\n' !in Printed(e)
  {
    LineReadBackIff(e);
    PrintedIsOneLine(e);
  }

  /** A track list of such entries is read back from its own text unchanged. */
  lemma TracklistReadBack(entries: seq<Entry>)
    requires forall e | e in entries :: Startable(e) && Survives(e)
    ensures ReadText(Join(PrintedAll(entries), "\n")) == entries
  {
    hide ParseLine, Fields;
    ParsePrintedAll(entries);
    if entries == [] {
      EmptyTextReadsEmpty();
    } else {
      FieldsOfJoin(PrintedAll(entries), '\n');
    }
  }

  lemma EmptyTextReadsEmpty()
    ensures ReadText([]) == []
  {
    var lines := Fields([], '\n');
    assert lines == [[]] && lines[1..] == [];
    assert ParseLine([]) == None;
  }

  // ----- Names that always survive

  predicate Dashless(s: string) {
    forall i | 0 <= i < |s| :: !IsDash(s[i])
  }

  lemma {:induction false} DashlessUnsplit(s: string)
    requires Dashless(s)
    ensures SplitName(s) == None
    decreases |s|
  {
    if s != [] { DashlessUnsplit(s[1..]); }
  }

  lemma {:induction false} DashlessPrefix(artist: string, tail: string)
    requires Dashless(artist) && (artist == [] || !IsSpace(artist[|artist| - 1])) && tail != [] && SpacedDash(tail) > 0
    ensures SplitName(artist + tail) == Some((artist, tail[SpacedDash(tail)..]))
    decreases |artist|
  {
    hide SpacedDash;
    var s := artist + tail;
    if artist == [] {
      assert s == tail;
    } else {
      assert s[1..] == artist[1..] + tail;
      DashlessPrefix(artist[1..], tail);
      NoDashYet(artist, tail);
      assert [artist[0]] + artist[1..] == artist;
    }
  }

  lemma NoDashYet(artist: string, tail: string)
    requires artist != [] && Dashless(artist) && !IsSpace(artist[|artist| - 1])
    ensures SpacedDash(artist + tail) == 0
  {
    var s := artist + tail;
    RunStopsInside(artist, tail);
    assert s[SpaceLen(s)] == artist[SpaceLen(s)];
  }

  lemma {:induction false} RunStopsInside(artist: string, tail: string)
    requires artist != [] && !IsSpace(artist[|artist| - 1])
    ensures SpaceLen(artist + tail) < |artist|
    decreases |artist|
  {
    if IsSpace(artist[0]) {
      assert (artist + tail)[1..] == artist[1..] + tail;
      RunStopsInside(artist[1..], tail);
    }
  }

  /** It is enough that the artist, or the title if there is no artist, has no dash, and that
      the name starts with no digit, bracket or separator. */
  lemma PlainNamesSurvive(e: Entry)
    requires Sane(e) && Dashless(if e.artist.Some? then e.artist.value else e.title)
    requires var c := Name(e)[0]; !IsDigit(c) && c != '[' && c != '(' && !IsSeparator(c)
    ensures NameClearOfTime(e) && FirstDashIsJoint(e) && ParseLine(Printed(e)) == Some(e)
  {
    DashlessSplits(e);
    SplitsAtJointIff(e);
    NoTimeWithoutDigit(e);
    hide NameClearOfTime, FirstDashIsJoint, SplitsAtJoint, ParseLine, Printed;
    LineReadBackIff(e);
  }

  lemma DashlessSplits(e: Entry)
    requires Sane(e) && Dashless(if e.artist.Some? then e.artist.value else e.title)
    ensures SplitsAtJoint(e)
  {
    hide SplitName, Dashless;
    if e.artist.Some? {
      JointDash(e.title);
      DashlessPrefix(e.artist.value, [' ', '-', ' '] + e.title);
    } else {
      DashlessUnsplit(e.title);
    }
  }

  lemma NoTimeWithoutDigit(e: Entry)
    requires Name(e) != [] && var c := Name(e)[0]; !IsDigit(c) && c != '[' && c != '(' && !IsSeparator(c)
    ensures NameClearOfTime(e)
  {
    hide Name;
  }

  // ----- The other ways a person may write a line

  predicate Dash(c: char) {
    c in {'-', '\U{2013}', '\U{2014}'}
  }

  lemma AnyDashJoins(d: char, title: string)
    requires Dash(d) && Trimmed(title)
    ensures SpacedDash([' ', d, ' '] + title) == 3 && ([' ', d, ' '] + title)[3..] == title
  {
    var s := [' ', d, ' '] + title;
    assert s[1..][0] == d && s[2..] == [' '] + title && s[2..][1..] == title;
    assert SpaceLen(s) == 1 && SpaceLen(s[2..]) == 1;
  }

  /** A hyphen, an en dash or an em dash between spaces parts the artist from the title. */
  lemma AnyDashReads(artist: string, d: char, title: string)
    requires Dash(d) && Trimmed(artist) && Trimmed(title) && Dashless(artist)
    requires !IsDigit(artist[0]) && artist[0] != '[' && artist[0] != '('
    ensures ParseLine(artist + ([' ', d, ' '] + title)) == Some(Entry(None, Some(artist), title))
  {
    var line := artist + ([' ', d, ' '] + title);
    AnyDashJoins(d, title);
    DashlessPrefix(artist, [' ', d, ' '] + title);
    assert Trimmed(line);
    TrimmedStrip(line);
    TrimmedStrip(artist);
    TrimmedStrip(title);
    NothingScanned(line);
    ParseLineIs(line);
    FromNameParts(None, line);
    hide FromName, ParseLine, SplitName, Strip, RStrip, ScanStart, Dashless;
  }

  lemma NothingScanned(line: string)
    requires line != [] && !IsDigit(line[0]) && line[0] != '[' && line[0] != '('
    ensures ScanStart(line) == (None, line)
  {
  }

  lemma {:induction false} LStripBlanks(blanks: string, rest: string)
    requires Blank(blanks) && (rest == [] || !IsSpace(rest[0]))
    ensures LStrip(blanks + rest) == rest
    decreases |blanks|
  {
    if blanks == [] {
      assert blanks + rest == rest;
    } else {
      var s := blanks + rest;
      assert s[1..] == blanks[1..] + rest;
      LStripBlanks(blanks[1..], rest);
      assert s[1 + SpaceLen(s[1..])..] == s[1..][SpaceLen(s[1..])..];
    }
  }

  /** What may stand around a time: brackets, and one of five separators after it. */
  predicate Opening(s: string) {
    s == [] || s == ['['] || s == ['(']
  }

  predicate Closing(s: string) {
    s == [] || s == [']'] || s == [')']
  }

  predicate Separating(s: string) {
    s == [] || (|s| == 1 && s[0] in {'-', '\U{2013}', '\U{2014}', '.', ')'})
  }

  /** A time with or without brackets, spaces and a separator is taken off the name. */
  lemma AnyStartReads(opening: string, seconds: nat, closing: string, before: string, separator: string,
                      after: string, name: string)
    requires Opening(opening) && Closing(closing) && Separating(separator) && Blank(before) && Blank(after)
    requires seconds <= START_MAX && Trimmed(name) && !Separating([name[0]])
    requires before != [] && name[0] !in {']', ')'}
    ensures ScanStart(opening + (FormatTime(seconds) + (closing + (before + (separator + (after + name))))))
      == (Some(seconds), name)
  {
    hide FormatTime, ScanTime, NameAfter, LStrip;
    var rest := closing + (before + (separator + (after + name)));
    assert rest[0] != ':';
    TimeBack(seconds, rest);
    var inside := FormatTime(seconds) + rest;
    assert inside[0] != '[' && inside[0] != '(';
    assert opening != [] ==> (opening + inside)[1..] == inside;
    assert opening == [] ==> opening + inside == inside;
    AfterClosing(closing, before, separator, after, name);
  }

  lemma AfterClosing(closing: string, before: string, separator: string, after: string, name: string)
    requires Closing(closing) && Separating(separator) && Blank(before) && Blank(after) && before != []
    requires Trimmed(name) && !Separating([name[0]])
    ensures NameAfter(closing + (before + (separator + (after + name)))) == name
  {
    hide LStrip;
    var closed := before + (separator + (after + name));
    assert IsSpace(closed[0]);
    assert closing != [] ==> (closing + closed)[1..] == closed;
    assert closing == [] ==> closing + closed == closed;
    AfterStart(before, separator, after, name);
  }

  lemma AfterStart(before: string, separator: string, after: string, name: string)
    requires Separating(separator) && Blank(before) && Blank(after) && Trimmed(name) && !Separating([name[0]])
    ensures var next := LStrip(before + (separator + (after + name)));
      (if next != [] && IsSeparator(next[0]) then LStrip(next[1..]) else next) == name
  {
    hide LStrip;
    LStripBlanks(after, name);
    if separator == [] {
      assert before + (separator + (after + name)) == (before + after) + name;
      LStripBlanks(before + after, name);
    } else {
      var tail := separator + (after + name);
      LStripBlanks(before, tail);
      assert tail[1..] == after + name;
    }
  }

  /** A line without a name, blank or a time alone, is no entry. */
  lemma NoNameNoEntry(line: string)
    ensures Blank(ScanStart(Strip(line)).1) ==> ParseLine(line) == None
    ensures Blank(line) ==> ParseLine(line) == None
  {
    ParseLineIs(line);
    var rest := ScanStart(Strip(line)).1;
    BlankStripped(rest);
    BlankStripped(line);
    hide FromName, ParseLine, LStrip, RStrip;
    if Blank(line) { assert ScanStart([]) == (None, []); }
    assert forall start :: FromName(start, []) == None by { NothingFromNothing(); }
  }

  lemma NothingFromNothing()
    ensures forall start :: FromName(start, []) == None
  {
  }

  lemma {:induction false} BlankStripped(s: string)
    ensures Blank(s) ==> RStrip(s) == [] && Strip(s) == []
    decreases |s|
  {
    if Blank(s) {
      BlankRStrip(s);
      LStripBlanks(s, []);
      assert s + [] == s;
    }
  }

  lemma {:induction false} BlankRStrip(s: string)
    requires Blank(s)
    ensures RStrip(s) == []
    decreases |s|
  {
    if s != [] { BlankRStrip(s[..|s| - 1]); }
  }
}
