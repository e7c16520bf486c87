/**
 * An event card of the dashboard list: the countdown label, the reminder
 * line, and the swipe-to-delete gesture.
 */
module EventCard {
  import opened Wrappers
  import opened Text
  import opened EventDetailModal

  // ---------------------------------------------------------------------
  // Countdown label

  /** How the countdown is drawn: grey, the strong colour of today, or highlighted. */
  datatype Tone = Muted | Today | Highlight

  datatype DaysText = DaysText(text: string, tone: Tone)

  /** `DaysLabel`: `passou`, `hoje!`, `amanhã`, or `em N dias`, highlighted within a week. */
  function DaysLabel(days: int): (r: DaysText)
    ensures r.tone == Muted <==> days < 0 || days > 7
    ensures r.tone == Today <==> days == 0
  {
    if days < 0 then DaysText("passou", Muted)
    else if days == 0 then DaysText("hoje!", Today)
    else if days == 1 then DaysText("amanhã", Highlight)
    else if days <= 7 then DaysText("em " + IntToString(days) + " dias", Highlight)
    else DaysText("em " + IntToString(days) + " dias", Muted)
  }

  /** Reads a countdown back; every past event reads as "passed". */
  function DaysOfLabel(text: string): Option<int> {
    if text == "passou" then Some(-1)
    else if text == "hoje!" then Some(0)
    else if text == "amanhã" then Some(1)
    else if |text| >= 3 && text[..3] == "em " then CountBefore(text[3..], " dias")
    else None
  }

  /** A count of days ahead is shown so that it can be read back; past events all show `passou`. */
  lemma DaysLabelRoundTrip(days: int)
    ensures days >= 0 ==> DaysOfLabel(DaysLabel(days).text) == Some(days)
    ensures days < 0 ==> DaysLabel(days).text == "passou"
  {
    if days > 1 {
      var text := DaysLabel(days).text;
      assert text[..3] == "em " && text[3..] == IntToString(days) + " dias";
      CountBeforeOf(days, " dias");
    }
  }

  // ---------------------------------------------------------------------
  // Reminder line

  /** The reminder line: `no dia`, else `N dia antes`, with `dias` only when N is more than one. */
  function ReminderText(daysBeforeAlert: int): string {
    if daysBeforeAlert == 0 then "no dia"
    else IntToString(daysBeforeAlert) + " dia" + (if daysBeforeAlert > 1 then "s" else "") + " antes"
  }

  /** Reads a reminder line back into the lead time. */
  function LeadTimeOfReminder(text: string): Option<int> {
    if text == "no dia" then Some(0)
    else if CountBefore(text, " dias antes").Some? then CountBefore(text, " dias antes")
    else CountBefore(text, " dia antes")
  }

  /** The singular form never ends in ` dias antes`. */
  lemma SingularIsNotPlural(n: int)
    ensures CountBefore(IntToString(n) + " dia antes", " dias antes") == None
  {
    var s := IntToString(n) + " dia antes";
    assert s[|s| - 11] == s[|IntToString(n)| - 1];
    assert IsDecimalDigit(s[|s| - 11]);
  }

  /** A plural reminder line reads back to its count. */
  lemma PluralReadBack(n: int)
    ensures LeadTimeOfReminder(IntToString(n) + " dias antes") == Some(n)
  {
    var text := IntToString(n) + " dias antes";
    assert |text| > |"no dia"|;
    CountBeforeOf(n, " dias antes");
  }

  /** A singular reminder line reads back to its count. */
  lemma SingularReadBack(n: int)
    ensures LeadTimeOfReminder(IntToString(n) + " dia antes") == Some(n)
  {
    var text := IntToString(n) + " dia antes";
    assert |text| > |"no dia"|;
    SingularIsNotPlural(n);
    CountBeforeOf(n, " dia antes");
  }

  /** Every lead time, negative ones included, is written so that it can be read back. */
  lemma ReminderRoundTrip(n: int)
    ensures LeadTimeOfReminder(ReminderText(n)) == Some(n)
  {
    if n > 1 {
      assert ReminderText(n) == IntToString(n) + " dias antes";
      PluralReadBack(n);
    } else if n != 0 {
      assert ReminderText(n) == IntToString(n) + " dia antes";
      SingularReadBack(n);
    }
  }

  /** The card and the detail sheet word a lead time alike, except 0 and the named weeks and month. */
  lemma ReminderMatchesDetailLabel(n: int)
    requires n >= 1 && n !in {7, 14, 30}
    ensures ReminderText(n) == AlertLabel(n)
  {
    if n > 1 {
      assert ReminderText(n) == IntToString(n) + " dias antes";
    }
  }

  // ---------------------------------------------------------------------
  // Swipe to delete

  /** How far the card slides to uncover the delete button, and how far it must be dragged to stay open. */
  const Reveal := 72
  const Threshold := 48

  /** The card offset while dragging by `dx`: the drag clamped into [-Reveal, 0]. */
  function MoveOffset(dx: int): (r: int)
    ensures -Reveal <= r <= 0
    ensures -Reveal <= dx <= 0 ==> r == dx
    ensures dx < -Reveal ==> r == -Reveal
    ensures dx > 0 ==> r == 0
  {
    if dx > 0 then 0 else if dx < -Reveal then -Reveal else dx
  }

  /** Where the card comes to rest on release: open when dragged at least Threshold, else closed. */
  function SnapOffset(offset: int): (r: int)
    ensures r == -Reveal || r == 0
    ensures r == -Reveal <==> offset <= -Threshold
  {
    if offset <= -Threshold then -Reveal else 0
  }

  /** Releasing a card at rest leaves it where it is. */
  lemma SnapIdempotent(offset: int)
    ensures SnapOffset(SnapOffset(offset)) == SnapOffset(offset)
  {
  }

  /** A single drag of `dx` then release opens the card exactly when it went Threshold to the left. */
  lemma DragThenRelease(dx: int)
    ensures SnapOffset(MoveOffset(dx)) == if dx <= -Threshold then -Reveal else 0
  {
  }

  /** The gesture state of one card. */
  class Swipe {
    var offset: int
    var startX: Option<int>
    var dragging: bool
    var deleteOpen: bool

    ghost predicate Valid()
      reads this
    {
      -Reveal <= offset <= 0
    }

    constructor ()
      ensures Valid()
      ensures offset == 0 && startX == None && !dragging && !deleteOpen
    {
      offset := 0;
      startX := None;
      dragging := false;
      deleteOpen := false;
    }

    /** `onTouchStart`: remembers where the finger went down. */
    method TouchStart(x: int)
      modifies this
      ensures startX == Some(x) && dragging
      ensures offset == old(offset) && deleteOpen == old(deleteOpen)
    {
      startX := Some(x);
      dragging := true;
    }

    /** `onTouchMove`: follows the finger, clamped; ignored when no drag is under way. */
    method TouchMove(x: int)
      requires Valid()
      modifies this
      ensures Valid()
      ensures startX == old(startX) && dragging == old(dragging) && deleteOpen == old(deleteOpen)
      ensures if old(dragging) && old(startX).Some? then offset == MoveOffset(x - old(startX).value)
              else offset == old(offset)
    {
      if !dragging || startX.None? {
        return;
      }
      var dx := x - startX.value;
      if dx > 0 {
        offset := 0;
        return;
      }
      offset := if dx < -Reveal then -Reveal else dx;
    }

    /** `onTouchEnd`: the drag ends and the card snaps open or shut. */
    method TouchEnd()
      requires Valid()
      modifies this
      ensures Valid()
      ensures !dragging && offset == SnapOffset(old(offset))
      ensures startX == old(startX) && deleteOpen == old(deleteOpen)
    {
      dragging := false;
      if offset <= -Threshold {
        offset := -Reveal;
      } else {
        offset := 0;
      }
    }

    /** `openDeleteSheet`: the card slides shut and the confirmation sheet opens. */
    method OpenDeleteSheet()
      modifies this
      ensures Valid()
      ensures offset == 0 && deleteOpen
      ensures startX == old(startX) && dragging == old(dragging)
    {
      offset := 0;
      deleteOpen := true;
    }

    /** `closeDeleteSheet`, once its closing animation has run. */
    method CloseDeleteSheet()
      modifies this
      ensures !deleteOpen
      ensures offset == old(offset) && startX == old(startX) && dragging == old(dragging)
    {
      deleteOpen := false;
    }
  }
}
