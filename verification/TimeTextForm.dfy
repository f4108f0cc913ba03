/** The texts of `TimeText`, position by position. */
module TimeTextForm {
  import opened Text
  import opened Wrappers
  import opened JsonParse
  import opened Bignum
  import opened GenerationClaims
  import opened TimeText

  /** Digits from `i` to `j`. */
  predicate DigitsIn(s: text, i: nat, j: nat) {
    i <= j <= |s| && AllDigits(s[i..j])
  }

  /** The number they write, or 0. */
  function NumberIn(s: text, i: nat, j: nat): nat {
    if DigitsIn(s, i, j) then DigitsValue(s[i..j]) else 0
  }

  /** YYYY-MM-DDThh:mm:ss.nnnnnnnnnZ */
  predicate HasForm(s: text) {
    && |s| == 30
    && DigitsIn(s, 0, 4) && s[4] == '-' as nat && DigitsIn(s, 5, 7) && s[7] == '-' as nat
    && DigitsIn(s, 8, 10) && s[10] == 'T' as nat && DigitsIn(s, 11, 13) && s[13] == ':' as nat
    && DigitsIn(s, 14, 16) && s[16] == ':' as nat && DigitsIn(s, 17, 19) && s[19] == '.' as nat
    && DigitsIn(s, 20, 29) && s[29] == 'Z' as nat
  }

  function DateIn(s: text): Date {
    Date(NumberIn(s, 0, 4), NumberIn(s, 5, 7), NumberIn(s, 8, 10))
  }

  /** A date of the calendar and a time of day without leap seconds. */
  predicate IsTime(s: text) {
    && HasForm(s)
    && 1 <= DateIn(s).month <= 12 && 1 <= DateIn(s).day <= DaysInMonth(DateIn(s).year, DateIn(s).month)
    && NumberIn(s, 11, 13) <= 23 && NumberIn(s, 14, 16) <= 59 && NumberIn(s, 17, 19) <= 59
  }

  /** Nanoseconds since January 1 of year 1. */
  function InstantIn(s: text): int {
    DayNumber(DateIn(s)) * 86_400_000_000_000 + NumberIn(s, 11, 13) * 3_600_000_000_000
    + NumberIn(s, 14, 16) * 60_000_000_000 + NumberIn(s, 17, 19) * 1_000_000_000 + NumberIn(s, 20, 29)
  }

  /** Where the fields begin. */
  const STARTS: seq<nat> := [0, 5, 8, 11, 14, 17, 20, 30]
  const MARKS: seq<unit> := [45, 45, 84, 58, 58, 46, 90]

  predicate SlotAt(s: text, i: nat)
    requires i < 7
  {
    DigitsIn(s, STARTS[i], STARTS[i + 1] - 1) && STARTS[i + 1] <= |s| && s[STARTS[i + 1] - 1] == MARKS[i]
  }

  function NumberAt(s: text, i: nat): nat
    requires i < 7
  {
    NumberIn(s, STARTS[i], STARTS[i + 1] - 1)
  }

  lemma SlotOf(i: nat)
    requires i < 7
    ensures STARTS[i + 1] == STARTS[i] + LAYOUT[i].width + 1 && LAYOUT[i].mark == MARKS[i]
  {
    assert i == 0 || i == 1 || i == 2 || i == 3 || i == 4 || i == 5 || i == 6;
  }

  lemma OneSlot(s: text, i: nat)
    requires i < 7 && STARTS[i] <= |s|
    ensures var rest := ParseFields(s[STARTS[i]..], LAYOUT[i..]);
      && (rest.Some? <==> SlotAt(s, i) && ParseFields(s[STARTS[i + 1]..], LAYOUT[i + 1..]).Some?)
      && (rest.Some? ==>
            rest.value == [NumberAt(s, i)] + ParseFields(s[STARTS[i + 1]..], LAYOUT[i + 1..]).value)
  {
    hide AllDigits, DigitsValue;
    var t := s[STARTS[i]..];
    var w := LAYOUT[i].width;
    SlotOf(i);
    assert LAYOUT[i..][0] == LAYOUT[i] && LAYOUT[i..][1..] == LAYOUT[i + 1..];
    if STARTS[i + 1] <= |s| {
      assert t[..w] == s[STARTS[i]..STARTS[i] + w] && t[w] == s[STARTS[i] + w];
      assert t[w + 1..] == s[STARTS[i + 1]..];
    }
  }

  predicate SlotsFrom(s: text, i: nat)
    requires i <= 7
    decreases 7 - i
  {
    if i == 7 then |s| == 30 else SlotAt(s, i) && SlotsFrom(s, i + 1)
  }

  function NumbersFrom(s: text, i: nat): seq<nat>
    requires i <= 7
    decreases 7 - i
  {
    if i == 7 then [] else [NumberAt(s, i)] + NumbersFrom(s, i + 1)
  }

  lemma {:induction false} FieldsFrom(s: text, i: nat)
    requires i <= 7 && STARTS[i] <= |s|
    ensures ParseFields(s[STARTS[i]..], LAYOUT[i..]) == if SlotsFrom(s, i) then Some(NumbersFrom(s, i)) else None
    decreases 7 - i
  {
    hide SlotAt, NumberIn;
    if i < 7 {
      hide ParseFields;
      OneSlot(s, i);
      if SlotAt(s, i) {
        SlotEnd(s, i);
        FieldsFrom(s, i + 1);
      }
    }
  }

  lemma SlotEnd(s: text, i: nat)
    requires i < 7 && SlotAt(s, i)
    ensures STARTS[i + 1] <= |s|
  {
  }

  lemma FormOf(s: text)
    ensures HasForm(s) <==> SlotsFrom(s, 0)
  {
    hide DigitsIn;
    AllSlots(s);
  }

  lemma AllSlots(s: text)
    ensures SlotsFrom(s, 0) <==>
      && |s| == 30
      && SlotAt(s, 0) && SlotAt(s, 1) && SlotAt(s, 2) && SlotAt(s, 3) && SlotAt(s, 4) && SlotAt(s, 5) && SlotAt(s, 6)
  {
    hide SlotAt;
    assert SlotsFrom(s, 5) <==> SlotAt(s, 5) && SlotAt(s, 6) && |s| == 30;
    assert SlotsFrom(s, 3) <==> SlotAt(s, 3) && SlotAt(s, 4) && SlotsFrom(s, 5);
    assert SlotsFrom(s, 1) <==> SlotAt(s, 1) && SlotAt(s, 2) && SlotsFrom(s, 3);
  }

  lemma AllNumbers(s: text)
    ensures NumbersFrom(s, 0) == [NumberIn(s, 0, 4), NumberIn(s, 5, 7), NumberIn(s, 8, 10), NumberIn(s, 11, 13),
                                  NumberIn(s, 14, 16), NumberIn(s, 17, 19), NumberIn(s, 20, 29)]
  {
    hide NumberIn;
    assert NumbersFrom(s, 5) == [NumberIn(s, 17, 19), NumberIn(s, 20, 29)];
    assert NumbersFrom(s, 3) == [NumberIn(s, 11, 13), NumberIn(s, 14, 16)] + NumbersFrom(s, 5);
    assert NumbersFrom(s, 1) == [NumberIn(s, 5, 7), NumberIn(s, 8, 10)] + NumbersFrom(s, 3);
  }

  /** A text is read exactly if it has the form and names a time; it is the time it names. */
  lemma TextIsRead(s: text)
    ensures ParseTime(s) == if IsTime(s) then Some(NormalizeTime(InstantIn(s))) else None
  {
    hide DigitsIn, NumberIn, ParseFields, DayNumber, DaysInMonth, NormalizeTime, SlotsFrom, NumbersFrom, HasForm;
    FieldsFrom(s, 0);
    FormOf(s);
    AllNumbers(s);
    assert s[0..] == s && LAYOUT[0..] == LAYOUT;
    if HasForm(s) {
      var f := NumbersFrom(s, 0);
      assert f[3..] == [NumberIn(s, 11, 13), NumberIn(s, 14, 16), NumberIn(s, 17, 19), NumberIn(s, 20, 29)];
      assert DayNumber(DateIn(s)) * DAY + ClockNumber(f[3..]) == InstantIn(s);
    }
  }

  /** What is written names the instant, in whole microseconds. */
  lemma TextSays(t: instant)
    requires InRange(t)
    ensures IsTime(TimeArg(t)) && NormalizeTime(InstantIn(TimeArg(t))) == NormalizeTime(t)
  {
    hide IsTime, InstantIn, TimeArg, ParseTime;
    TimeRoundTrip(t);
    TextIsRead(TimeArg(t));
  }
}
