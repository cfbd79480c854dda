/**
 * `SeleniumNewsScraper.normalize_date`: turns a Romanian relative date such as
 * "acum 5 minute" ("5 minutes ago") into the instant it names.
 *
 * Instants are naive `datetime` values counted in microseconds from
 * 0001-01-01T00:00:00 (`datetime.min`); `datetime.now()` is the parameter
 * `now`, and `isoformat` is the parameter `iso`.
 */
module RelativeDate {
  import opened Wrappers
  import opened Text

  const MicrosPerMinute: nat := 60_000_000
  const MicrosPerHour: nat := 3_600_000_000
  const MicrosPerDay: nat := 86_400_000_000

  /** `timedelta.max.days`: a larger `timedelta` raises `OverflowError`. */
  const MaxDeltaDays: nat := 999_999_999

  /** `datetime.max` (9999-12-31T23:59:59.999999): day 3652059 of the calendar
      ends one microsecond before this many microseconds. */
  const MaxInstant: nat := 3_652_059 * MicrosPerDay - 1

  /** An instant a `datetime` can hold. */
  predicate IsInstant(t: int) {
    0 <= t <= MaxInstant
  }

  type Instant = t: int | 0 <= t <= MaxInstant

  /** The filler words the normaliser deletes: "acum" ("ago", literally "now")
      and "în urmă" ("back"). */
  const Acum: string := "acum"
  const InUrma: string := "\U{00EE}n urm\U{0103}"

  /** `date_str.lower().replace("acum", "").replace("în urmă", "")`. */
  function Cleaned(raw: string): string
  {
    ReplaceAll(ReplaceAll(Lower(raw), Acum, ""), InUrma, "")
  }

  datatype Unit = Minutes | Hours | Days

  function Micros(u: Unit): (m: nat)
    ensures m >= MicrosPerMinute
  {
    match u
    case Minutes => MicrosPerMinute
    case Hours => MicrosPerHour
    case Days => MicrosPerDay
  }

  /** The unit markers, tested in this order: "minut", then "ora", then "zi". */
  function MarkerOf(c: string): (u: Option<Unit>)
    ensures u == Some(Minutes) <==> Contains(c, "minut")
    ensures u == Some(Hours) <==> !Contains(c, "minut") && Contains(c, "ora")
    ensures u == Some(Days) <==> !Contains(c, "minut") && !Contains(c, "ora") && Contains(c, "zi")
  {
    if Contains(c, "minut") then Some(Minutes)
    else if Contains(c, "ora") then Some(Hours)
    else if Contains(c, "zi") then Some(Days)
    else None
  }

  /** `int("".join(filter(str.isdigit, c)))` when there is at least one digit:
      every digit of the string, run together into one number. */
  function Amount(c: string): nat
  {
    DecimalValue(DigitsOf(c))
  }

  /** The three exits of the normaliser: an instant in the past, the `""` of the
      exception handler, or the cleaned text when no marker matched. */
  datatype Outcome = Ago(instant: int) | Failed | Kept(text: string)

  function Normalize(raw: string, now: Instant): (o: Outcome)
    ensures o.Ago? ==> IsInstant(o.instant) && o.instant <= now
  {
    var c := Cleaned(raw);
    match MarkerOf(c)
    case None => Kept(c)
    case Some(u) =>
      if DigitsOf(c) == [] then Failed                   // int("") raises ValueError
      else
        var delta := Amount(c) * Micros(u);
        if delta / MicrosPerDay > MaxDeltaDays then Failed // timedelta(...) raises OverflowError
        else if now - delta < 0 then Failed               // datetime subtraction raises OverflowError
        else Ago(now - delta)
  }

  /** `normalize_date(date_str, source)`. */
  function NormalizeDate(raw: string, now: Instant, iso: int -> string): string
  {
    match Normalize(raw, now)
    case Ago(t) => iso(t)
    case Failed => ""
    case Kept(c) => c
  }

  // ---------------------------------------------------------------------------
  // Properties
  // ---------------------------------------------------------------------------

  /** The normaliser in full: with a marker and some digit, the result is the
      instant `Amount` units before `now`, and it fails exactly when there is no
      digit or that instant would fall before year 1 (the `timedelta` limit is
      never the deciding one); without a marker the cleaned text comes back. */
  lemma NormalizeSpec(raw: string, now: Instant)
    ensures var c, o := Cleaned(raw), Normalize(raw, now);
      && (o.Kept? <==> MarkerOf(c).None?)
      && (o.Kept? ==> o.text == c)
      && (o.Ago? <==> MarkerOf(c).Some? && DigitsOf(c) != [] && Amount(c) * Micros(MarkerOf(c).value) <= now)
      && (o.Ago? ==> o.instant == now - Amount(c) * Micros(MarkerOf(c).value))
  {
    var c := Cleaned(raw);
    if MarkerOf(c).Some? && DigitsOf(c) != [] {
      var delta := Amount(c) * Micros(MarkerOf(c).value);
      assert delta / MicrosPerDay > MaxDeltaDays ==> delta > MaxInstant;
    }
  }

  /** Digits from different numbers run together: "1 ora si 30" counts 130. */
  lemma AmountRunsTogether(a: string, b: string)
    ensures Amount(a + b) == Amount(a) * Pow10(|DigitsOf(b)|) + Amount(b)
  {
    DigitsOfAppend(a, b);
    DecimalValueAppend(DigitsOf(a), DigitsOf(b));
  }

  /** Text passed through unchanged is lower-cased. */
  lemma KeptIsLowered(raw: string, now: Instant)
    requires Normalize(raw, now).Kept?
    ensures IsLowered(Normalize(raw, now).text)
  {
    var lowered := Lower(raw);
    LowerIsLowered(raw);
    ReplaceKeepsLowered(lowered, Acum, "");
    ReplaceKeepsLowered(ReplaceAll(lowered, Acum, ""), InUrma, "");
  }

  /** A string that starts with "acum" and holds no other filler cleans to
      the rest, lower-cased. */
  lemma CleanedAfterAcum(rest: string)
    requires !Contains(Lower(rest), Acum) && !Contains(Lower(rest), InUrma)
    ensures Cleaned(Acum + rest) == Lower(rest)
  {
    var l := Lower(rest);
    var s := Acum + l;
    assert Lower(Acum) == Acum;
    LowerAppend(Acum, rest);
    assert s[..|Acum|] == Acum;
    assert s[|Acum|..] == l;
    assert ReplaceAll(s, Acum, "") == ReplaceAll(l, Acum, "");
    ReplaceWithoutMatch(l, Acum, "");
    ReplaceWithoutMatch(l, InUrma, "");
  }

  /** A string whose lower-cased form holds no filler word cleans to that form. */
  lemma CleanedWithoutFiller(s: string)
    requires !Contains(Lower(s), Acum) && !Contains(Lower(s), InUrma)
    ensures Cleaned(s) == Lower(s)
  {
    ReplaceWithoutMatch(Lower(s), Acum, "");
    ReplaceWithoutMatch(Lower(s), InUrma, "");
  }

  /** Digits framed by lower-case text. */
  lemma Framed(a: string, d: string, b: string)
    requires AllDigits(d)
    requires Lower(a) == a && Lower(b) == b
    ensures Lower(a + d + b) == a + d + b
    ensures DigitsOf(a + d + b) == DigitsOf(a) + d + DigitsOf(b)
  {
    DigitStringFacts(d);
    LowerAppend(a, d);
    LowerAppend(a + d, b);
    DigitsOfAppend(a, d);
    DigitsOfAppend(a + d, b);
  }

  /** Text made of lower-case ASCII letters, spaces, commas and colons only. */
  predicate PlainText(t: string) {
    forall i :: 0 <= i < |t| ==> 'a' <= t[i] <= 'z' || t[i] == ' ' || t[i] == ',' || t[i] == ':'
  }

  lemma PlainFacts(t: string)
    requires PlainText(t)
    ensures Lower(t) == t && DigitsOf(t) == [] && InUrma[0] !in t
  {
    DigitsOfExtremes(t);
    LowerIsLowered(t);
  }

  lemma AgoFrom(raw: string, now: Instant, c: string, u: Unit, n: nat)
    requires Cleaned(raw) == c
    requires MarkerOf(c) == Some(u) && DigitsOf(c) != [] && Amount(c) == n && n * Micros(u) <= now
    ensures Normalize(raw, now) == Ago(now - n * Micros(u))
  {
    NormalizeSpec(raw, now);
  }

  /** "acum " followed by a number and a lower-case tail without filler. */
  lemma AcumFramed(d: string, tail: string)
    requires AllDigits(d)
    requires Lower(tail) == tail && Acum[1] !in tail && InUrma[0] !in tail
    ensures Cleaned("acum " + d + tail) == " " + d + tail
    ensures DigitsOf(" " + d + tail) == d + DigitsOf(tail)
  {
    var c := " " + d + tail;
    assert "acum " + d + tail == Acum + c;
    SpaceFramed(d, tail);
    AbsentChar(c, Acum, 1);
    AbsentChar(c, InUrma, 0);
    CleanedAfterAcum(c);
  }

  lemma SpaceFramed(d: string, tail: string)
    requires AllDigits(d)
    requires Lower(tail) == tail && Acum[1] !in tail && InUrma[0] !in tail
    ensures var c := " " + d + tail;
      Lower(c) == c && DigitsOf(c) == d + DigitsOf(tail) && Acum[1] !in c && InUrma[0] !in c
  {
    SpaceWord();
    PlainFacts(" ");
    Framed(" ", d, tail);
    CharOutside(" ", d, tail, Acum[1]);
    CharOutside(" ", d, tail, InUrma[0]);
  }

  lemma KeptFrom(raw: string, now: Instant, c: string)
    requires Cleaned(raw) == c && MarkerOf(c) == None
    ensures Normalize(raw, now) == Kept(c)
  {
  }

  lemma FailedFrom(raw: string, now: Instant, c: string)
    requires Cleaned(raw) == c && MarkerOf(c).Some? && DigitsOf(c) == []
    ensures Normalize(raw, now) == Failed
  {
  }

  /** An occurrence in a tail is an occurrence in the whole. */
  lemma OccursAfter(a: string, t: string, p: string, k: nat)
    requires OccursAt(t, p, k)
    ensures OccursAt(a + t, p, |a| + k)
  {
    assert (a + t)[|a| + k..|a| + k + |p|] == t[k..k + |p|];
  }

  /** A non-digit outside both frames is not in the framed string. */
  lemma CharOutside(a: string, d: string, b: string, ch: char)
    requires AllDigits(d) && !IsDigit(ch) && ch !in a && ch !in b
    ensures ch !in a + d + b
  {
    assert ch !in d;
  }

  lemma MinutesMarker(c: string, k: nat)
    requires OccursAt(c, "minut", k)
    ensures MarkerOf(c) == Some(Minutes)
  {
  }

  lemma DaysMarker(c: string, i: nat, j: nat, k: nat)
    requires i < 5 && "minut"[i] !in c && j < 3 && "ora"[j] !in c && OccursAt(c, "zi", k)
    ensures MarkerOf(c) == Some(Days)
  {
    AbsentChar(c, "minut", i);
    AbsentChar(c, "ora", j);
  }

  lemma NoMarker(c: string, i: nat, j: nat, k: nat)
    requires i < 5 && "minut"[i] !in c && j < 3 && "ora"[j] !in c && k < 2 && "zi"[k] !in c
    ensures MarkerOf(c) == None
  {
    AbsentChar(c, "minut", i);
    AbsentChar(c, "ora", j);
    AbsentChar(c, "zi", k);
  }

  // Facts about the literal words of the examples, each checked on its own.

  lemma SpaceWord()
    ensures PlainText(" ") && PlainText("")
  {
  }

  lemma MinuteWord()
    ensures PlainText(" minute") && Acum[1] !in " minute" && OccursAt(" minute", "minut", 1)
  {
  }

  lemma ZileWord()
    ensures PlainText(" zile") && Acum[1] !in " zile" && 'm' !in " zile" && 'o' !in " zile"
    ensures OccursAt(" zile", "zi", 1)
  {
  }

  lemma OreWord()
    ensures PlainText(" ore") && Acum[1] !in " ore" && 'm' !in " ore" && 'a' !in " ore" && 'z' !in " ore"
  {
  }

  lemma OraSiWord()
    ensures PlainText(" ora si ") && Acum[1] !in " ora si " && Acum[1] !in " minute"
  {
  }

  lemma MulteWord()
    ensures PlainText("multe" + " minute") && Acum[1] !in "multe" + " minute"
  {
  }

  lemma AziWords()
    ensures PlainText("azi, ") && PlainText(":")
    ensures Acum[1] !in "azi, " && InUrma[0] !in "azi, " && 'm' !in "azi, " && 'o' !in "azi, "
    ensures Acum[1] !in ":" && InUrma[0] !in ":" && 'm' !in ":" && 'o' !in ":"
  {
  }

  lemma JanuaryWords()
    ensures PlainText("anuarie ") && PlainText(" ianuarie ")
    ensures Acum[1] !in " ianuarie " && InUrma[0] !in " ianuarie "
    ensures 'm' !in " ianuarie " && 'o' !in " ianuarie " && 'z' !in " ianuarie "
  {
  }

  /** "acum ", a number and a tail whose marker gives the unit. */
  lemma AcumAgo(d: string, tail: string, u: Unit, now: Instant)
    requires d != [] && AllDigits(d)
    requires PlainText(tail) && Acum[1] !in tail
    requires MarkerOf(" " + d + tail) == Some(u)
    requires DecimalValue(d) * Micros(u) <= now
    ensures Normalize("acum " + d + tail, now) == Ago(now - DecimalValue(d) * Micros(u))
  {
    assert d + [] == d;
    PlainFacts(tail);
    AcumFramed(d, tail);
    AgoFrom("acum " + d + tail, now, " " + d + tail, u, DecimalValue(d));
  }

  // Worked examples.

  lemma MinutesAgo(d: string, now: Instant)
    requires d != [] && AllDigits(d)
    requires DecimalValue(d) * MicrosPerMinute <= now
    ensures Normalize("acum " + d + " minute", now) == Ago(now - DecimalValue(d) * MicrosPerMinute)
  {
    MinuteWord();
    OccursAfter(" " + d, " minute", "minut", 1);
    MinutesMarker(" " + d + " minute", |d| + 2);
    AcumAgo(d, " minute", Minutes, now);
  }

  lemma DaysAgo(d: string, now: Instant)
    requires d != [] && AllDigits(d)
    requires DecimalValue(d) * MicrosPerDay <= now
    ensures Normalize("acum " + d + " zile", now) == Ago(now - DecimalValue(d) * MicrosPerDay)
  {
    var c := " " + d + " zile";
    ZileWord();
    OccursAfter(" " + d, " zile", "zi", 1);
    CharOutside(" ", d, " zile", 'm');
    CharOutside(" ", d, " zile", 'o');
    DaysMarker(c, 0, 0, |d| + 2);
    AcumAgo(d, " zile", Days, now);
  }

  /** The plural "ore" does not contain the marker "ora": "acum 2 ore" ("2
      hours ago") is passed through as text. */
  lemma PluralHoursNotRecognised(d: string, now: Instant)
    requires AllDigits(d)
    ensures Normalize("acum " + d + " ore", now) == Kept(" " + d + " ore")
  {
    var c := " " + d + " ore";
    OreWord();
    assert MarkerOf(c) == None by {
      CharOutside(" ", d, " ore", 'm');
      CharOutside(" ", d, " ore", 'a');
      CharOutside(" ", d, " ore", 'z');
      NoMarker(c, 0, 2, 0);
    }
    assert Cleaned("acum " + d + " ore") == c by {
      PlainFacts(" ore");
      AcumFramed(d, " ore");
    }
    KeptFrom("acum " + d + " ore", now, c);
  }

  /** The tail " ora si <m> minute" of a two-number relative date. */
  lemma HoursTail(m: string)
    requires AllDigits(m)
    ensures var tail := " ora si " + m + " minute";
      && Lower(tail) == tail && DigitsOf(tail) == m
      && Acum[1] !in tail && InUrma[0] !in tail
  {
    assert [] + m + [] == m;
    OraSiWord();
    MinuteWord();
    PlainFacts(" ora si ");
    PlainFacts(" minute");
    Framed(" ora si ", m, " minute");
    CharOutside(" ora si ", m, " minute", Acum[1]);
    CharOutside(" ora si ", m, " minute", InUrma[0]);
  }

  /** The text of "acum <h> ora si <m> minute" after cleaning. */
  lemma HoursAndMinutesText(h: string, m: string)
    requires AllDigits(h) && AllDigits(m)
    ensures var c := " " + h + (" ora si " + m + " minute");
      && Cleaned("acum " + h + " ora si " + m + " minute") == c
      && DigitsOf(c) == h + m
      && MarkerOf(c) == Some(Minutes)
  {
    var tail := " ora si " + m + " minute";
    assert "acum " + h + " ora si " + m + " minute" == "acum " + h + tail;
    MinuteWord();
    OccursAfter(" ora si " + m, " minute", "minut", 1);
    OccursAfter(" " + h, tail, "minut", |m| + 9);
    MinutesMarker(" " + h + tail, |h| + |m| + 10);
    HoursTail(m);
    AcumFramed(h, tail);
  }

  /** Hours and minutes together: the digits of both numbers are run together
      and read as minutes, so "acum 1 ora si 30 minute" is 130 minutes back,
      not 90. */
  lemma HoursAndMinutesCountAsMinutes(h: string, m: string, now: Instant)
    requires AllDigits(h) && AllDigits(m) && m != []
    requires (DecimalValue(h) * Pow10(|m|) + DecimalValue(m)) * MicrosPerMinute <= now
    ensures Normalize("acum " + h + " ora si " + m + " minute", now)
         == Ago(now - (DecimalValue(h) * Pow10(|m|) + DecimalValue(m)) * MicrosPerMinute)
  {
    assert Micros(Minutes) == MicrosPerMinute;
    DecimalValueAppend(h, m);
    HoursAndMinutesText(h, m);
    AgoFrom("acum " + h + " ora si " + m + " minute", now, " " + h + (" ora si " + m + " minute"),
      Minutes, DecimalValue(h) * Pow10(|m|) + DecimalValue(m));
  }

  /** The letters of "azi, <hh>:<mm>" are those of "azi, " and ":". */
  lemma TodayChars(hh: string, mm: string, ch: char)
    requires AllDigits(hh) && AllDigits(mm) && !IsDigit(ch) && ch !in "azi, " && ch !in ":"
    ensures ch !in "azi, " + hh + ":" + mm
  {
    assert ch !in hh;
    assert ch !in mm;
  }

  lemma TodayLowered(hh: string, mm: string)
    requires AllDigits(hh) && AllDigits(mm)
    ensures var c := "azi, " + hh + ":" + mm;
      Lower(c) == c && DigitsOf(c) == hh + mm
  {
    var x := "azi, " + hh + ":";
    assert x + mm + "" == x + mm;
    assert [] + hh + [] == hh;
    assert hh + mm + [] == hh + mm;
    AziWords();
    SpaceWord();
    PlainFacts(":");
    PlainFacts("azi, ");
    PlainFacts("");
    Framed("azi, ", hh, ":");
    Framed(x, mm, "");
  }

  /** The text of "azi, <hh>:<mm>" after cleaning. */
  lemma TodayText(hh: string, mm: string)
    requires AllDigits(hh) && AllDigits(mm)
    ensures var c := "azi, " + hh + ":" + mm;
      && Cleaned(c) == c && DigitsOf(c) == hh + mm && MarkerOf(c) == Some(Days)
  {
    var c := "azi, " + hh + ":" + mm;
    assert c == "a" + ("zi, " + hh + ":" + mm);
    OccursAfter("a", "zi, " + hh + ":" + mm, "zi", 0);
    AziWords();
    TodayChars(hh, mm, Acum[1]);
    TodayChars(hh, mm, InUrma[0]);
    TodayChars(hh, mm, 'm');
    TodayChars(hh, mm, 'o');
    DaysMarker(c, 0, 0, 1);
    TodayLowered(hh, mm);
    AbsentChar(c, Acum, 1);
    AbsentChar(c, InUrma, 0);
    CleanedWithoutFiller(c);
  }

  /** Any text containing "zi" counts as days, so "azi" ("today") followed by a
      clock time hh:mm is read as hhmm days ago. */
  lemma TodayReadAsDays(hh: string, mm: string, now: Instant)
    requires AllDigits(hh) && AllDigits(mm) && mm != []
    requires (DecimalValue(hh) * Pow10(|mm|) + DecimalValue(mm)) * MicrosPerDay <= now
    ensures Normalize("azi, " + hh + ":" + mm, now)
         == Ago(now - (DecimalValue(hh) * Pow10(|mm|) + DecimalValue(mm)) * MicrosPerDay)
  {
    var c := "azi, " + hh + ":" + mm;
    var n := DecimalValue(hh) * Pow10(|mm|) + DecimalValue(mm);
    assert n * Micros(Days) == n * MicrosPerDay;
    DecimalValueAppend(hh, mm);
    TodayText(hh, mm);
    AgoFrom(c, now, c, Days, n);
  }

  lemma LowerCapitalI()
    ensures Lower("I") == "i"
  {
    assert LowerChar('I') as int == 'i' as int;
  }

  lemma LowerJanuary()
    ensures Lower(" Ianuarie ") == " ianuarie "
  {
    assert " Ianuarie " == " " + "I" + "anuarie ";
    assert " ianuarie " == " " + "i" + "anuarie ";
    LowerCapitalI();
    JanuaryWords();
    SpaceWord();
    PlainFacts("anuarie ");
    PlainFacts(" ");
    LowerAppend(" ", "I");
    LowerAppend(" " + "I", "anuarie ");
  }

  /** The letters of "<d> ianuarie <y>" are those of " ianuarie ". */
  lemma DateChars(d: string, y: string, ch: char)
    requires AllDigits(d) && AllDigits(y) && !IsDigit(ch) && ch !in " ianuarie "
    ensures ch !in d + " ianuarie " + y
  {
    assert ch !in d;
    assert ch !in y;
  }

  lemma DateLowered(d: string, y: string)
    requires AllDigits(d) && AllDigits(y)
    ensures Lower(d + " Ianuarie " + y) == d + " ianuarie " + y
  {
    LowerJanuary();
    DigitStringFacts(d);
    DigitStringFacts(y);
    LowerAppend(d, " Ianuarie ");
    LowerAppend(d + " Ianuarie ", y);
  }

  /** The text of "<d> Ianuarie <y>" after cleaning. */
  lemma AbsoluteDateText(d: string, y: string)
    requires AllDigits(d) && AllDigits(y)
    ensures var c := d + " ianuarie " + y;
      && Cleaned(d + " Ianuarie " + y) == c
      && MarkerOf(c) == None
  {
    var c := d + " ianuarie " + y;
    JanuaryWords();
    DateChars(d, y, Acum[1]);
    DateChars(d, y, InUrma[0]);
    DateChars(d, y, 'm');
    DateChars(d, y, 'o');
    DateChars(d, y, 'z');
    NoMarker(c, 0, 0, 0);
    DateLowered(d, y);
    AbsentChar(c, Acum, 1);
    AbsentChar(c, InUrma, 0);
    CleanedWithoutFiller(d + " Ianuarie " + y);
  }

  /** Without a marker the text is lower-cased, not returned as given:
      "<d> Ianuarie <y>" comes back as "<d> ianuarie <y>". */
  lemma AbsoluteDateIsLowerCased(d: string, y: string, now: Instant)
    requires AllDigits(d) && AllDigits(y)
    ensures Normalize(d + " Ianuarie " + y, now) == Kept(d + " ianuarie " + y)
  {
    AbsoluteDateText(d, y);
    KeptFrom(d + " Ianuarie " + y, now, d + " ianuarie " + y);
  }

  /** A marker without a number hits the `ValueError` of `int("")`: "acum
      multe minute" ("many minutes ago") fails. */
  lemma MarkerWithoutNumberFails(now: Instant)
    ensures Normalize("acum multe minute", now) == Failed
  {
    var tail := "multe" + " minute";
    var c := " " + "" + tail;
    assert "acum " + "" + tail == "acum multe minute";
    assert c == " " + "" + "multe" + " minute";
    OccursAfter(" " + "" + "multe", " minute", "minut", 1);
    MinutesMarker(c, 7);
    MulteWord();
    PlainFacts(tail);
    assert "" + DigitsOf(tail) == [];
    AcumFramed("", tail);
    FailedFrom("acum multe minute", now, c);
  }

  lemma FillerWord()
    ensures PlainText("acacumum")
  {
  }

  lemma AcumPass()
    ensures ReplaceAll("acacumum", Acum, "") == "acum"
  {
    assert ReplaceAll("acumum", Acum, "") == "um";
    assert ReplaceAll("cacumum", Acum, "") == "cum";
  }

  lemma AcumHasNoInUrma()
    ensures ReplaceAll("acum", InUrma, "") == "acum"
  {
    AbsentChar("acum", InUrma, 0);
    ReplaceWithoutMatch("acum", InUrma, "");
  }

  /** The filler is removed in one left-to-right pass, so removing it can
      close up a new "acum". */
  lemma FillerRemovalIsSinglePass()
    ensures Cleaned("acacumum") == "acum"
  {
    FillerWord();
    PlainFacts("acacumum");
    AcumPass();
    AcumHasNoInUrma();
  }
}
