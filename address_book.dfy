/** The ordered collection of records, with case-insensitive lookup and the
    upcoming-birthday query (task.py: class AddressBook). */
module AddressBooks {
  import opened Text
  import opened Errors
  import opened Dates
  import opened Records

  /** One line of the birthday report: the dict with keys "name" and
      "congratulation_date". */
  datatype Entry = Entry(name: string, congratulationDate: string)

  /** `a.lower() == b.lower()`. */
  predicate SameName(a: string, b: string)
  {
    Lower(a) == Lower(b)
  }

  /** The index of the first record named `name` ignoring case, or -1. */
  function FirstNamed(rs: seq<Record>, name: string): (k: int)
    ensures -1 <= k < |rs|
    ensures k == -1 <==> forall i :: 0 <= i < |rs| ==> !SameName(rs[i].name, name)
    ensures 0 <= k ==> SameName(rs[k].name, name) && forall i :: 0 <= i < k ==> !SameName(rs[i].name, name)
  {
    if rs == [] then -1
    else if SameName(rs[0].name, name) then 0
    else
      var k := FirstNamed(rs[1..], name);
      assert forall i :: 1 <= i < |rs| ==> rs[i] == rs[1..][i - 1];
      if k == -1 then -1 else k + 1
  }

  /** The record `find` returns for `name`, or null. */
  function Target(rs: seq<Record>, name: string): (r: Record?)
    ensures r == null <==> forall i :: 0 <= i < |rs| ==> !SameName(rs[i].name, name)
    ensures r != null ==> exists k :: 0 <= k < |rs| && r == rs[k] && SameName(rs[k].name, name)
                                      && forall i :: 0 <= i < k ==> !SameName(rs[i].name, name)
  {
    var k := FirstNamed(rs, name);
    if k < 0 then null else rs[k]
  }

  /** Lookup ignores the case of the name asked for: two queries that differ
      only in the case of ASCII letters find the same record. */
  lemma FindIgnoresCase(rs: seq<Record>, a: string, b: string)
    requires |a| == |b|
    requires forall i :: 0 <= i < |a| ==> a[i] == b[i] || LowerChar(a[i]) == b[i] || a[i] == LowerChar(b[i])
    ensures FirstNamed(rs, a) == FirstNamed(rs, b)
  {
    LowerIgnoresCase(a, b);
  }

  // ------------------------------------------------ upcoming birthdays

  /** `d` lies in the week starting `today`: it is `today` plus 0 to 7 days. */
  ghost predicate InWeek(today: CalendarDate, d: CalendarDate)
  {
    exists k :: 0 <= k <= 7 && AddDays(today, k) == Some(d)
  }

  /** Given that `today + 7 days` exists, the week is the closed interval
      from `today` to it. */
  lemma InWeekIsInterval(today: CalendarDate, d: CalendarDate)
    requires AddDays(today, 7).Some?
    ensures InWeek(today, d) <==> NoLater(today, d) && NoLater(d, AddDays(today, 7).value)
  {
    WithinDays(today, 7, d);
    if InWeek(today, d) {
      var k :| 0 <= k <= 7 && AddDays(today, k) == Some(d);
      assert exists k :: 0 <= k <= 7 && AddDays(today, k) == Some(d);
    }
    if NoLater(today, d) && NoLater(d, AddDays(today, 7).value) {
      var k :| 0 <= k <= 7 && AddDays(today, k) == Some(d);
      assert InWeek(today, d);
    }
  }

  /** Contact `c` has a birthday whose next occurrence falls in the week. */
  ghost predicate InWindow(c: Contact, today: CalendarDate)
  {
    && c.birthday.Some?
    && Occurrence(c.birthday.value, today).Success?
    && InWeek(today, Occurrence(c.birthday.value, today).value)
  }

  /** `e` is the report line for contact `c`. */
  ghost predicate IsEntryFor(c: Contact, today: CalendarDate, e: Entry)
  {
    InWindow(c, today) && e == Entry(c.name, FormatYMD(Occurrence(c.birthday.value, today).value))
  }

  /** The loop body of `get_upcoming_birthdays` for one contact: no line, one
      line, or the exception it raises. The chained comparison
      `today <= d <= today + timedelta(days=7)` only computes the sum when
      its first half holds. */
  function Step(c: Contact, today: CalendarDate): (r: Result<seq<Entry>>)
    ensures r.Failure? <==>
              c.birthday.Some? && (Occurrence(c.birthday.value, today).Failure? || AddDays(today, 7).None?)
    ensures r.Failure? ==>
              r.error == if Occurrence(c.birthday.value, today).Failure? then DateOutOfRange else DateOverflow
    ensures r.Success? ==>
              r.value == if InWindow(c, today) then [Entry(c.name, FormatYMD(Occurrence(c.birthday.value, today).value))] else []
  {
    match c.birthday
    case None => Success([])
    case Some(b) =>
      match Occurrence(b, today)
      case Failure(e) => Failure(e)
      case Success(d) =>
        if !NoLater(today, d) then Success([])
        else
          match AddDays(today, 7)
          case None => Failure(DateOverflow)
          case Some(last) =>
            InWeekIsInterval(today, d);
            if NoLater(d, last) then Success([Entry(c.name, FormatYMD(d))]) else Success([])
  }

  /** `get_upcoming_birthdays(today)` over the contacts `cs`: the lines of
      the contacts in order, or the first exception raised. */
  function Upcoming(cs: seq<Contact>, today: CalendarDate): (r: Result<seq<Entry>>)
    ensures r.Success? ==> |r.value| <= |cs|
    ensures r.Failure? ==> r.error == DateOutOfRange || r.error == DateOverflow
  {
    if cs == [] then Success([])
    else
      match Upcoming(cs[..|cs| - 1], today)
      case Failure(e) => Failure(e)
      case Success(es) =>
        match Step(cs[|cs| - 1], today)
        case Failure(e) => Failure(e)
        case Success(more) => Success(es + more)
  }

  /** Adding a contact at the end adds its step's lines, or its error. */
  lemma UpcomingAppend(cs: seq<Contact>, c: Contact, today: CalendarDate)
    requires Upcoming(cs, today).Success?
    ensures Upcoming(cs + [c], today) ==
            match Step(c, today)
            case Failure(e) => Failure(e)
            case Success(more) => Success(Upcoming(cs, today).value + more)
  {
    assert (cs + [c])[..|cs|] == cs;
  }

  /** One more contact of a prefix that has not raised: either its step
      raises and so does the whole query, or its lines are added. */
  lemma UpcomingPrefix(cs: seq<Contact>, i: nat, today: CalendarDate)
    requires i < |cs| && Upcoming(cs[..i], today).Success?
    ensures Step(cs[i], today).Failure? ==> Upcoming(cs, today) == Step(cs[i], today)
    ensures Step(cs[i], today).Success? ==>
              Upcoming(cs[..i + 1], today) == Success(Upcoming(cs[..i], today).value + Step(cs[i], today).value)
  {
    assert cs[..i + 1] == cs[..i] + [cs[i]];
    UpcomingAppend(cs[..i], cs[i], today);
    if Step(cs[i], today).Failure? {
      UpcomingFailureSticks(cs, i + 1, today);
    }
  }

  /** Once a prefix of the contacts raises, the whole query raises the same. */
  lemma {:induction false} UpcomingFailureSticks(cs: seq<Contact>, i: nat, today: CalendarDate)
    requires i <= |cs| && Upcoming(cs[..i], today).Failure?
    ensures Upcoming(cs, today) == Upcoming(cs[..i], today)
    decreases |cs| - i
  {
    if i < |cs| {
      assert cs[..i + 1][..i] == cs[..i];
      UpcomingFailureSticks(cs, i + 1, today);
    } else {
      assert cs[..i] == cs;
    }
  }

  /** The positions of the contacts whose birthday comes within the week. */
  ghost function Picks(cs: seq<Contact>, today: CalendarDate): seq<nat>
  {
    if cs == [] then []
    else Picks(cs[..|cs| - 1], today) + if InWindow(cs[|cs| - 1], today) then [|cs| - 1] else []
  }

  lemma {:induction false} PicksAscend(cs: seq<Contact>, today: CalendarDate)
    ensures forall j :: 0 <= j < |Picks(cs, today)| ==> Picks(cs, today)[j] < |cs|
    ensures forall j, j' :: 0 <= j < j' < |Picks(cs, today)| ==> Picks(cs, today)[j] < Picks(cs, today)[j']
  {
    if cs != [] {
      PicksAscend(cs[..|cs| - 1], today);
    }
  }

  lemma {:induction false} PicksComplete(cs: seq<Contact>, today: CalendarDate, i: nat)
    requires i < |cs| && InWindow(cs[i], today)
    ensures i in Picks(cs, today)
  {
    var n := |cs| - 1;
    var front := cs[..n];
    if i < n {
      assert front[i] == cs[i];
      PicksComplete(front, today, i);
      var j :| 0 <= j < |Picks(front, today)| && Picks(front, today)[j] == i;
      assert Picks(cs, today)[j] == i;
    } else {
      assert Picks(cs, today) == Picks(front, today) + [n];
    }
  }

  lemma {:induction false} PicksEntries(cs: seq<Contact>, today: CalendarDate)
    requires Upcoming(cs, today).Success?
    ensures |Picks(cs, today)| == |Upcoming(cs, today).value|
    ensures forall j :: 0 <= j < |Picks(cs, today)| ==>
              Picks(cs, today)[j] < |cs| && IsEntryFor(cs[Picks(cs, today)[j]], today, Upcoming(cs, today).value[j])
  {
    PicksAscend(cs, today);
    if cs != [] {
      var n := |cs| - 1;
      var front := cs[..n];
      PicksEntries(front, today);
      var ps, ps' := Picks(cs, today), Picks(front, today);
      var es, es' := Upcoming(cs, today).value, Upcoming(front, today).value;
      var more := Step(cs[n], today).value;
      assert es == es' + more;
      if InWindow(cs[n], today) {
        assert ps == ps' + [n] && more == [Entry(cs[n].name, FormatYMD(Occurrence(cs[n].birthday.value, today).value))];
      } else {
        assert ps == ps' && more == [];
      }
      forall j | 0 <= j < |ps|
        ensures IsEntryFor(cs[ps[j]], today, es[j])
      {
        if j < |ps'| {
          assert ps[j] == ps'[j] && es[j] == es'[j];
          assert cs[ps'[j]] == front[ps'[j]];
        } else {
          assert ps[j] == n && es[j] == more[0];
        }
      }
    }
  }

  /** A successful query lists, in the order of the contacts, one line for
      each contact whose birthday comes within the week, and nothing else. */
  lemma UpcomingSelects(cs: seq<Contact>, today: CalendarDate) returns (idx: seq<nat>)
    requires Upcoming(cs, today).Success?
    ensures |idx| == |Upcoming(cs, today).value|
    ensures forall j :: 0 <= j < |idx| ==> idx[j] < |cs| && IsEntryFor(cs[idx[j]], today, Upcoming(cs, today).value[j])
    ensures forall j, j' :: 0 <= j < j' < |idx| ==> idx[j] < idx[j']
    ensures forall i :: 0 <= i < |cs| && InWindow(cs[i], today) ==> i in idx
  {
    idx := Picks(cs, today);
    PicksAscend(cs, today);
    PicksEntries(cs, today);
    forall i | 0 <= i < |cs| && InWindow(cs[i], today)
      ensures i in idx
    {
      PicksComplete(cs, today, i);
    }
  }

  /** A failing query raises the error of the first contact whose step
      raises; the contacts before it all succeed. */
  lemma {:induction false} UpcomingFailure(cs: seq<Contact>, today: CalendarDate) returns (i: nat)
    requires Upcoming(cs, today).Failure?
    ensures i < |cs| && Step(cs[i], today) == Failure(Upcoming(cs, today).error)
    ensures forall j :: 0 <= j < i ==> Step(cs[j], today).Success?
  {
    var n := |cs| - 1;
    var front := cs[..n];
    assert forall j :: 0 <= j < n ==> front[j] == cs[j];
    if Upcoming(front, today).Failure? {
      i := UpcomingFailure(front, today);
    } else {
      i := n;
      UpcomingSuccessSteps(front, today);
    }
  }

  /** In a successful query every contact's step succeeds. */
  lemma {:induction false} UpcomingSuccessSteps(cs: seq<Contact>, today: CalendarDate)
    requires Upcoming(cs, today).Success?
    ensures forall j :: 0 <= j < |cs| ==> Step(cs[j], today).Success?
  {
    if cs != [] {
      var n := |cs| - 1;
      var front := cs[..n];
      assert Upcoming(front, today).Success? && Step(cs[n], today).Success?;
      UpcomingSuccessSteps(front, today);
      forall j | 0 <= j < n
        ensures Step(cs[j], today).Success?
      {
        assert front[j] == cs[j];
      }
    }
  }

  // ------------------------------------------------------- the book

  class AddressBook {
    var contacts: seq<Record>

    /** `AddressBook()`: no contacts. */
    constructor ()
      ensures contacts == []
    {
      contacts := [];
    }

    /** `add_record`: appended at the end, with no check for duplicates. */
    method AddRecord(record: Record)
      modifies this
      ensures contacts == old(contacts) + [record]
    {
      contacts := contacts + [record];
    }

    /** `find`: the first record whose name equals `name` ignoring case, or
        `None`. */
    method Find(name: string) returns (r: Record?)
      ensures r == Target(contacts, name)
      // corollaries of the clause above and the contract of `Target`
      ensures r == null <==> forall i :: 0 <= i < |contacts| ==> !SameName(contacts[i].name, name)
      ensures r != null ==> r in contacts && SameName(r.name, name)
    {
      for i := 0 to |contacts|
        invariant forall j :: 0 <= j < i ==> !SameName(contacts[j].name, name)
      {
        if SameName(contacts[i].name, name) {
          return contacts[i];
        }
      }
      return null;
    }

    function View(): seq<Contact>
      reads this, contacts
    {
      Views(contacts)
    }

    /** `get_upcoming_birthdays`, with the clock reading passed in as `today`. */
    method UpcomingBirthdays(today: CalendarDate) returns (r: Result<seq<Entry>>)
      ensures r == Upcoming(View(), today)
    {
      r := UpcomingLines(View(), today);
    }
  }

  /** The loop of `get_upcoming_birthdays` over the records' values, in
      order, stopping at the first one that raises. */
  method UpcomingLines(cs: seq<Contact>, today: CalendarDate) returns (r: Result<seq<Entry>>)
    ensures r == Upcoming(cs, today)
  {
    var lines: seq<Entry> := [];
    for i := 0 to |cs|
      invariant Upcoming(cs[..i], today) == Success(lines)
    {
      var step := BirthdayLine(cs[i], today);
      UpcomingPrefix(cs, i, today);
      if step.Failure? {
        return Failure(step.error);
      }
      lines := lines + step.value;
    }
    assert cs[..|cs|] == cs;
    return Success(lines);
  }

  /** The body of the loop in `get_upcoming_birthdays` for one record: move
      the birthday into this year, roll it to the next year if it has
      passed, and keep it if it falls in the week. */
  method BirthdayLine(record: Contact, today: CalendarDate) returns (r: Result<seq<Entry>>)
    ensures r == Step(record, today)
  {
    if record.birthday.None? {
      return Success([]);
    }
    var birthday := record.birthday.value;
    var thisYear := ReplaceYear(birthday, today.year);
    if thisYear.Failure? {
      return Failure(thisYear.error);
    }
    var date := thisYear.value;
    if Before(date, today) {
      var nextYear := ReplaceYear(birthday, today.year + 1);
      if nextYear.Failure? {
        return Failure(nextYear.error);
      }
      date := nextYear.value;
    }
    assert Occurrence(birthday, today) == Success(date);
    if !NoLater(today, date) {
      return Success([]);
    }
    var weekEnd := AddDays(today, 7);
    if weekEnd.None? {
      return Failure(DateOverflow);
    }
    if NoLater(date, weekEnd.value) {
      return Success([Entry(record.name, FormatYMD(date))]);
    }
    return Success([]);
  }
}
