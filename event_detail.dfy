/** The event detail sheet: how the alert lead time is worded. */
module EventDetailModal {
  import opened Wrappers
  import opened Text

  /** The number in front of `suffix`, when `s` is a number followed by `suffix`. */
  function CountBefore(s: string, suffix: string): Option<int> {
    if |s| >= |suffix| && s[|s| - |suffix|..] == suffix then ParseInt(s[..|s| - |suffix|]) else None
  }

  /** A rendered integer followed by a suffix reads back as the integer. */
  lemma CountBeforeOf(n: int, suffix: string)
    ensures CountBefore(IntToString(n) + suffix, suffix) == Some(n)
  {
    var s := IntToString(n) + suffix;
    assert s[|s| - |suffix|..] == suffix && s[..|s| - |suffix|] == IntToString(n);
    ParseIntOfIntToString(n);
  }

  /** `alertLabel`: the lead time in words, with names for one and two weeks and one month. */
  function AlertLabel(days: int): string {
    if days == 0 then "No dia do evento"
    else if days == 1 then "1 dia antes"
    else if days == 7 then "1 semana antes"
    else if days == 14 then "2 semanas antes"
    else if days == 30 then "1 mês antes"
    else IntToString(days) + " dias antes"
  }

  /** Reads a label back into the lead time it describes. */
  function LeadTimeOfLabel(text: string): Option<int> {
    if text == "No dia do evento" then Some(0)
    else if text == "1 dia antes" then Some(1)
    else if text == "1 semana antes" then Some(7)
    else if text == "2 semanas antes" then Some(14)
    else if text == "1 mês antes" then Some(30)
    else CountBefore(text, " dias antes")
  }

  /** No named label ends in ` dias antes` preceded by a number. */
  lemma GeneralLabelIsNotNamed(days: int)
    ensures var s := IntToString(days) + " dias antes";
      s != "No dia do evento" && s != "1 dia antes" && s != "1 semana antes"
      && s != "2 semanas antes" && s != "1 mês antes"
  {
    var s := IntToString(days) + " dias antes";
    assert s[|s| - 10] == 'd';
  }

  /** Every lead time is worded so that it can be read back: the label loses nothing. */
  lemma AlertLabelRoundTrip(days: int)
    ensures LeadTimeOfLabel(AlertLabel(days)) == Some(days)
  {
    if days !in {0, 1, 7, 14, 30} {
      GeneralLabelIsNotNamed(days);
      CountBeforeOf(days, " dias antes");
    }
  }

  /** Different lead times are worded differently. */
  lemma AlertLabelInjective(a: int, b: int)
    requires AlertLabel(a) == AlertLabel(b)
    ensures a == b
  {
    AlertLabelRoundTrip(a);
    AlertLabelRoundTrip(b);
  }
}
