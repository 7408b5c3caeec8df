/** Concrete scenarios of the contact book, derived from the contracts alone. */
module Scenarios {
  import opened Text
  import opened Errors
  import opened Dates
  import opened Phones
  import opened Records
  import opened AddressBooks
  import opened Handlers

  /** A day past the end of its month, such as 31 February or 31 April, is
      refused in every year, although each field on its own has an
      accepted form. */
  lemma DayPastMonthEndRefused(d: Date)
    requires 0 <= d.year <= 9999 && 1 <= d.month <= 12
    requires DaysInMonth(d.year, d.month) < d.day <= 31
    ensures ParseBirthday(Pad2(d.day) + "." + Pad2(d.month) + "." + Pad4(d.year)) == Failure(InvalidDate)
  {
    ParseSpelled(Pad2(d.day), Pad2(d.month), Pad4(d.year), d);
  }

  /** One-digit days and months need no padding. */
  lemma UnpaddedFieldsAccepted(d: CalendarDate)
    requires d.day <= 9 && d.month <= 9
    ensures ParseBirthday([DigitChar(d.day)] + "." + [DigitChar(d.month)] + "." + Pad4(d.year)) == Success(d)
  {
    ParseSpelled([DigitChar(d.day)], [DigitChar(d.month)], Pad4(d.year), d);
  }

  /** A one-digit day may be padded with a space instead of a zero. */
  lemma SpacePaddedDayAccepted(d: CalendarDate)
    requires d.day <= 9
    ensures ParseBirthday([' ', DigitChar(d.day)] + "." + Pad2(d.month) + "." + Pad4(d.year)) == Success(d)
  {
    ParseSpelled([' ', DigitChar(d.day)], Pad2(d.month), Pad4(d.year), d);
  }

  /** A book of one contact answers with that contact's step. */
  lemma UpcomingSingle(c: Contact, today: CalendarDate)
    ensures Upcoming([c], today) == Step(c, today)
  {
    assert Upcoming([], today) == Success([]);
    UpcomingAppend([], c, today);
    assert [] + [c] == [c];
    if Step(c, today).Success? {
      assert [] + Step(c, today).value == Step(c, today).value;
    }
  }

  lemma LastWeekOf2024()
    ensures AddDays(Date(2024, 12, 28), 7) == Some(Date(2025, 1, 4))
    ensures AddDays(Date(2024, 12, 20), 7) == Some(Date(2024, 12, 27))
  {
    assert AddDays(Date(2024, 12, 28), 4) == Some(Date(2025, 1, 1));
    assert AddDays(Date(2024, 12, 20), 4) == Some(Date(2024, 12, 24));
  }

  lemma FormatNewYear2025()
    ensures FormatYMD(Date(2025, 1, 1)) == "2025.01.01"
  {
    assert Pad2(1) == "01" && Pad2(20) == "20" && Pad2(25) == "25";
    assert FormatYMD(Date(2025, 1, 1)) == Pad2(20) + Pad2(25) + "." + Pad2(1) + "." + Pad2(1);
  }

  /** A birthday on 1 January seen from 28 December is rolled into the next
      year and reported. */
  lemma NewYearRollover()
    ensures Upcoming([Contact("Alice", [], Some(Date(2000, 1, 1)))], Date(2024, 12, 28))
            == Success([Entry("Alice", "2025.01.01")])
  {
    var c := Contact("Alice", [], Some(Date(2000, 1, 1)));
    var today := Date(2024, 12, 28);
    assert Occurrence(Date(2000, 1, 1), today) == Success(Date(2025, 1, 1));
    LastWeekOf2024();
    InWeekIsInterval(today, Date(2025, 1, 1));
    FormatNewYear2025();
    assert InWindow(c, today);
    UpcomingSingle(c, today);
  }

  /** Seen from 20 December, 1 January is more than a week away. */
  lemma NewYearTooFar()
    ensures Upcoming([Contact("Alice", [], Some(Date(2000, 1, 1)))], Date(2024, 12, 20))
            == Success([])
  {
    var c := Contact("Alice", [], Some(Date(2000, 1, 1)));
    var today := Date(2024, 12, 20);
    assert Occurrence(Date(2000, 1, 1), today) == Success(Date(2025, 1, 1));
    LastWeekOf2024();
    InWeekIsInterval(today, Date(2025, 1, 1));
    assert !InWindow(c, today);
    UpcomingSingle(c, today);
  }

  /** A contact born on 29 February makes the whole query raise on any day
      of a common year, whatever the contacts after it are. */
  lemma LeapDayBirthdayBreaksQuery(c: Contact, others: seq<Contact>, today: CalendarDate)
    requires c.birthday.Some? && IsLeapDay(c.birthday.value) && !IsLeapYear(today.year)
    ensures Upcoming([c] + others, today) == Failure(DateOutOfRange)
  {
    var cs := [c] + others;
    assert cs[..1] == [cs[0]] && [cs[0]][..0] == [];
    UpcomingFailureSticks(cs, 1, today);
  }

  /** Tabs and runs of spaces between the words of a command line are
      dropped like single spaces. */
  lemma TabbedCommandLine()
    ensures ParseInput("add \t Bob") == Success(("add", ["Bob"]))
  {
    ParseInputLayout(["", " \t ", ""], "add", ["Bob"]);
    assert Weave(["", " \t ", ""], ["add"] + ["Bob"]) == "add \t Bob";
    assert Lower("add") == "add";
  }

  /** A new contact with a valid phone is created in an empty book. */
  method BookWithAlice() returns (book: AddressBook, alice: Record)
    ensures fresh(book) && fresh(alice) && book.contacts == [alice]
    ensures alice.name == "Alice" && alice.phones == ["1234567890"] && alice.birthday == None
  {
    book := new AddressBook();
    assert Validate("1234567890");
    assert FirstNamed(book.contacts, "Alice") == -1;
    var reply := AddContact(["Alice", "1234567890"], book);
    assert reply == Success("Contact added.");
    alice := book.contacts[0];
    assert book.contacts == [alice];
  }

  /** Adding a short phone to an existing contact, named in other case, is
      refused and its phone list keeps its single entry. */
  method AddShortPhone()
  {
    var book, alice := BookWithAlice();
    assert !Validate("12345");
    assert SameName(alice.name, "alice");
    assert FirstNamed(book.contacts, "alice") == 0;
    var reply := AddContact(["alice", "12345"], book);
    assert reply == Failure(InvalidPhone);
    assert book.contacts == [alice] && alice.phones == ["1234567890"];
  }
}
