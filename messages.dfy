/**
 The four notification mails: "created" and "completed" from the task
 routes, "reminder" and "overdue" from the scanners. Timestamps are
 rendered in decimal (the service prints Python datetimes instead).
 */
module Messages {
  import opened Types

  const CreatedSubject: string := "🆕 New Task Created"
  const CompletedSubject: string := "🎉 Task Completed"
  const ReminderPrefix: string := "⏰ Reminder: "
  const OverduePrefix: string := "⚠️ Overdue Task: "

  const ReminderHead: string := "Your task is due soon.\n\nTitle: "
  const OverdueHead: string := "Your task deadline has passed!\n\nTitle: "

  // ---------------------------------------------------------------
  // Rendering of values inside a mail
  // ---------------------------------------------------------------

  predicate IsDigit(c: char)
  {
    '0' as int <= c as int <= '9' as int
  }

  function DigitChar(d: nat): (c: char)
    requires d < 10
    ensures IsDigit(c) && c as int - '0' as int == d
  {
    ('0' as int + d) as char
  }

  /** The decimal digits of `n`, most significant first, without leading zeros. */
  function Digits(n: nat): (s: string)
    ensures s != []
    ensures forall k :: 0 <= k < |s| ==> IsDigit(s[k])
    ensures n == 0 <==> s == "0"
    decreases n
  {
    if n < 10 then [DigitChar(n)] else Digits(n / 10) + [DigitChar(n % 10)]
  }

  /** A timestamp as it appears in a mail body. */
  function Stamp(t: Time): (s: string)
    ensures s != []
  {
    if t < 0 then "-" + Digits(-t) else Digits(t)
  }

  /** The value of a non-empty string of decimal digits. */
  function DigitsValue(s: string): nat
    requires s != []
    requires forall k :: 0 <= k < |s| ==> IsDigit(s[k])
  {
    assert IsDigit(s[|s| - 1]);
    var last := s[|s| - 1] as int - '0' as int;
    if |s| == 1 then last else DigitsValue(s[..|s| - 1]) * 10 + last
  }

  /** Reads a timestamp back from its rendering. */
  function ParseStamp(s: string): Option<Time>
  {
    if s != [] && s[0] == '-' && |s| > 1 && (forall k :: 1 <= k < |s| ==> IsDigit(s[k])) then
      var magnitude: int := DigitsValue(s[1..]);
      Some(-magnitude)
    else if s != [] && forall k :: 0 <= k < |s| ==> IsDigit(s[k]) then
      Some(DigitsValue(s))
    else
      None
  }

  lemma {:induction false} DigitsRoundTrip(n: nat)
    ensures DigitsValue(Digits(n)) == n
    decreases n
  {
    if n >= 10 {
      var s := Digits(n);
      assert s[..|s| - 1] == Digits(n / 10);
      DigitsRoundTrip(n / 10);
    }
  }

  /** A timestamp printed into a body can be read back unchanged. */
  lemma StampRoundTrip(t: Time)
    ensures ParseStamp(Stamp(t)) == Some(t)
  {
    if t < 0 {
      var s := Stamp(t);
      assert s[1..] == Digits(-t);
      DigitsRoundTrip(-t);
    } else {
      DigitsRoundTrip(t);
    }
  }

  /** The description line of the "created" mail: `description or '-'`. */
  function CreatedDescription(d: Option<string>): (s: string)
    ensures s == "-" <==> !Truthy(d) || d.value == "-"
    ensures Truthy(d) ==> s == d.value
  {
    if Truthy(d) then d.value else "-"
  }

  /** Python's `str` of an optional description: NULL prints as "None". */
  function ShowOptional(d: Option<string>): (s: string)
    ensures d.Some? ==> s == d.value
    ensures d.None? ==> s == "None"
  {
    match d
    case None => "None"
    case Some(text) => text
  }

  // ---------------------------------------------------------------
  // The mails
  // ---------------------------------------------------------------

  function CreatedBody(title: string, description: Option<string>, due: Time, reminder: Time): string
  {
    "A new task has been created.\n\nTitle: " + title
    + "\nDescription: " + CreatedDescription(description)
    + "\nDue: " + Stamp(due)
    + "\nReminder: " + Stamp(reminder)
    + "\n\nStay productive! 🚀"
  }

  function CreatedMail(to: string, title: string, description: Option<string>, due: Time, reminder: Time): Mail
  {
    Mail(to, CreatedSubject, CreatedBody(title, description, due, reminder))
  }

  function CompletedMail(to: string, title: string): (m: Mail)
    ensures m.to == to && m.subject == CompletedSubject
  {
    Mail(to, CompletedSubject, "Great job! You completed a task:\n\nTask: " + title + "\n\nKeep going! 💪")
  }

  function ReminderSubject(title: string): string
  {
    ReminderPrefix + title
  }

  function ReminderBody(title: string, description: Option<string>, at: Time): string
  {
    ReminderHead + title + "\nDescription: " + ShowOptional(description) + "\nReminder Time: " + Stamp(at)
  }

  function OverdueSubject(title: string): string
  {
    OverduePrefix + title
  }

  function OverdueBody(title: string, description: Option<string>, at: Time): string
  {
    OverdueHead + title + "\nDescription: " + ShowOptional(description) + "\nDue Date: " + Stamp(at)
  }

  // ---------------------------------------------------------------
  // What a recipient can read back from a mail
  // ---------------------------------------------------------------

  /** The title carried by a subject that starts with `prefix`. */
  function TitleAfter(prefix: string, subject: string): (r: Option<string>)
    ensures r.Some? <==> prefix <= subject
    ensures r.Some? ==> subject == prefix + r.value
  {
    if prefix <= subject then Some(subject[|prefix|..]) else None
  }

  /** `part` occurs in `s` as a contiguous slice. */
  ghost predicate Contains(s: string, part: string)
  {
    exists i, j :: 0 <= i <= j <= |s| && s[i..j] == part
  }

  lemma ContainsEnd(before: string, part: string)
    ensures Contains(before + part, part)
  {
    assert (before + part)[|before|..|before| + |part|] == part;
  }

  lemma ContainsExtend(s: string, part: string, more: string)
    requires Contains(s, part)
    ensures Contains(s + more, part)
  {
    var i, j :| 0 <= i <= j <= |s| && s[i..j] == part;
    assert (s + more)[i..j] == part;
  }

  /** Reminder and overdue subjects carry the task title and cannot be mistaken for each other. */
  lemma SubjectsCarryTitle(title: string)
    ensures TitleAfter(ReminderPrefix, ReminderSubject(title)) == Some(title)
    ensures TitleAfter(OverduePrefix, OverdueSubject(title)) == Some(title)
    ensures TitleAfter(OverduePrefix, ReminderSubject(title)) == None
    ensures TitleAfter(ReminderPrefix, OverdueSubject(title)) == None
  {
    assert ReminderSubject(title)[0] == '⏰';
    assert OverdueSubject(title)[0] == '⚠';
  }

  /** A reminder body shows the title, the description and the reminder time. */
  lemma ReminderBodyCarries(title: string, description: Option<string>, at: Time)
    ensures Contains(ReminderBody(title, description, at), title)
    ensures Contains(ReminderBody(title, description, at), ShowOptional(description))
    ensures Contains(ReminderBody(title, description, at), Stamp(at))
  {
    var d := ShowOptional(description);
    var x := ReminderHead + title;
    var y := x + "\nDescription: " + d;
    var z := y + "\nReminder Time: " + Stamp(at);
    ContainsEnd(ReminderHead, title);
    ContainsExtend(x, title, "\nDescription: ");
    ContainsExtend(x + "\nDescription: ", title, d);
    ContainsExtend(y, title, "\nReminder Time: ");
    ContainsExtend(y + "\nReminder Time: ", title, Stamp(at));
    ContainsEnd(x + "\nDescription: ", d);
    ContainsExtend(y, d, "\nReminder Time: ");
    ContainsExtend(y + "\nReminder Time: ", d, Stamp(at));
    ContainsEnd(y + "\nReminder Time: ", Stamp(at));
  }

  /** An overdue body shows the title, the description and the due time. */
  lemma OverdueBodyCarries(title: string, description: Option<string>, at: Time)
    ensures Contains(OverdueBody(title, description, at), title)
    ensures Contains(OverdueBody(title, description, at), ShowOptional(description))
    ensures Contains(OverdueBody(title, description, at), Stamp(at))
  {
    var d := ShowOptional(description);
    var x := OverdueHead + title;
    var y := x + "\nDescription: " + d;
    ContainsEnd(OverdueHead, title);
    ContainsExtend(x, title, "\nDescription: ");
    ContainsExtend(x + "\nDescription: ", title, d);
    ContainsExtend(y, title, "\nDue Date: ");
    ContainsExtend(y + "\nDue Date: ", title, Stamp(at));
    ContainsEnd(x + "\nDescription: ", d);
    ContainsExtend(y, d, "\nDue Date: ");
    ContainsExtend(y + "\nDue Date: ", d, Stamp(at));
    ContainsEnd(y + "\nDue Date: ", Stamp(at));
  }

  /** Extends a containment through the rest of a "created" body. */
  /** The "completed" body names the task by its title. */
  lemma CompletedBodyCarries(to: string, title: string)
    ensures Contains(CompletedMail(to, title).body, title)
  {
    var head := "Great job! You completed a task:\n\nTask: ";
    ContainsEnd(head, title);
    ContainsExtend(head + title, title, "\n\nKeep going! 💪");
  }

  lemma ContainsThroughCreated(title: string, description: Option<string>, due: Time, reminder: Time, part: string, upTo: nat)
    requires upTo <= 3
    requires upTo == 0 ==> Contains("A new task has been created.\n\nTitle: " + title, part)
    requires upTo == 1 ==> Contains("A new task has been created.\n\nTitle: " + title
      + "\nDescription: " + CreatedDescription(description), part)
    requires upTo == 2 ==> Contains("A new task has been created.\n\nTitle: " + title
      + "\nDescription: " + CreatedDescription(description) + "\nDue: " + Stamp(due), part)
    requires upTo == 3 ==> Contains("A new task has been created.\n\nTitle: " + title
      + "\nDescription: " + CreatedDescription(description) + "\nDue: " + Stamp(due)
      + "\nReminder: " + Stamp(reminder), part)
    ensures Contains(CreatedBody(title, description, due, reminder), part)
    decreases 3 - upTo
  {
    var s0 := "A new task has been created.\n\nTitle: " + title;
    var s1 := s0 + "\nDescription: " + CreatedDescription(description);
    var s2 := s1 + "\nDue: " + Stamp(due);
    var s3 := s2 + "\nReminder: " + Stamp(reminder);
    if upTo == 0 {
      ContainsExtend(s0, part, "\nDescription: ");
      ContainsExtend(s0 + "\nDescription: ", part, CreatedDescription(description));
      ContainsThroughCreated(title, description, due, reminder, part, 1);
    } else if upTo == 1 {
      ContainsExtend(s1, part, "\nDue: ");
      ContainsExtend(s1 + "\nDue: ", part, Stamp(due));
      ContainsThroughCreated(title, description, due, reminder, part, 2);
    } else if upTo == 2 {
      ContainsExtend(s2, part, "\nReminder: ");
      ContainsExtend(s2 + "\nReminder: ", part, Stamp(reminder));
      ContainsThroughCreated(title, description, due, reminder, part, 3);
    } else {
      ContainsExtend(s3, part, "\n\nStay productive! 🚀");
    }
  }

  /** A "created" body shows the title, '-' for a missing or empty description, and both times. */
  lemma CreatedBodyCarries(title: string, description: Option<string>, due: Time, reminder: Time)
    ensures Contains(CreatedBody(title, description, due, reminder), title)
    ensures Contains(CreatedBody(title, description, due, reminder), if Truthy(description) then description.value else "-")
    ensures Contains(CreatedBody(title, description, due, reminder), Stamp(due))
    ensures Contains(CreatedBody(title, description, due, reminder), Stamp(reminder))
  {
    var s0 := "A new task has been created.\n\nTitle: " + title;
    var s1 := s0 + "\nDescription: " + CreatedDescription(description);
    var s2 := s1 + "\nDue: " + Stamp(due);
    ContainsEnd("A new task has been created.\n\nTitle: ", title);
    ContainsThroughCreated(title, description, due, reminder, title, 0);
    ContainsEnd(s0 + "\nDescription: ", CreatedDescription(description));
    ContainsThroughCreated(title, description, due, reminder, CreatedDescription(description), 1);
    ContainsEnd(s1 + "\nDue: ", Stamp(due));
    ContainsThroughCreated(title, description, due, reminder, Stamp(due), 2);
    ContainsEnd(s2 + "\nReminder: ", Stamp(reminder));
    ContainsThroughCreated(title, description, due, reminder, Stamp(reminder), 3);
  }
}
