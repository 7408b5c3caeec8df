# Contact book assistant, modelled in Dafny

This project models the logic of a console contact book written in Python as `task.py`. The book keeps an ordered list of contacts. Each contact has a name, a list of ten-digit phone numbers and an optional birthday. The handlers do the following:

- add a contact or a phone;
- replace a phone;
- show a contact's phones;
- set and show a birthday;
- list the contacts whose birthday falls within the coming week.

The model follows the source's own structure. The files import one another and verify together as one program.

- `errors.dfy`: `Errors`.
  - The kinds of failure the program raises and the Python exception class of each.
  - `Result` and `Option`.
  - The replies the `input_error` decorator substitutes for caught exceptions.
- `text.dfy`: `Text`.
  - ASCII digits and `%02d`/`%04d` padding.
  - `str.lower`.
  - The first index of an element, as a linear scan finds it.
  - `str.split()` and `join`, with the round trip between them.
- `dates.dfy`: `Dates`.
  - The proleptic Gregorian calendar of 1-01-01 to 9999-12-31.
  - The successor date and adding days, with the overflow past 9999-12-31.
  - `date.replace(year=…)` and the birthday's next occurrence.
  - The `strftime` formats that are used.
  - `strptime(text, "%d.%m.%Y")`, with round-trip lemmas.
- `phones.dfy`: `Phones`. `Phone.validate` and the `Phone` constructor. The type `Phone` holds only validated strings.
- `records.dfy`: `Records`. `class Record` with `add_phone`, `change_phone`, `add_birthday` and `__str__`. Its fields are updated in place.
- `address_book.dfy`: `AddressBooks`.
  - `class AddressBook` with `add_record`, `find` and `get_upcoming_birthdays`.
  - The specification of the birthday query as a function over the contacts' values, with lemmas that give it meaning: which entries appear, in what order, and when the query raises.
- `handlers.dfy`: `Handlers`.
  - `add_contact`, `change_contact`, `show_phone`, `add_birthday` and `show_birthday` each return their reply or the error they raise. These five are wrapped in `input_error`, and `Errors.InputError` maps the outcome to what the user sees.
  - `parse_input` is not wrapped in `input_error`. Its `ValueError` on a line with no words (`Handlers.ParseInput` returns `EmptyInput`) is not caught in the console loop, so the program stops there.
- `scenarios.dfy`: `Scenarios`. Concrete consequences of the contracts: a day past the end of its month refused, the new-year rollover, a 29 February birthday breaking the query, a command line with a tab, and a short phone refused.

### Behaviour worth knowing

- **Birthdays on 29 February.** `get_upcoming_birthdays` moves each birthday into the current year with `date.replace`. That raises `ValueError` for 29 February in a common year. The model treats it as an error outcome. In a common year, one contact born on 29 February makes the whole query fail, and the decorator answers "Please give me proper value.". In a leap year the same happens once 29 February has passed, because the date is then moved into the following, common, year. `Dates.Occurrence` states exactly when this happens.
- **Adding a contact with an invalid phone.** `add_contact` creates and appends the new record before it validates the phone. An invalid phone is reported, but a new phoneless contact stays in the book.
- **Year 9999.** `today + timedelta(days=7)` raises `OverflowError` after 9999-12-24, and `input_error` does not catch it. The model keeps it as the error `DateOverflow`, for which `InputError` returns `None`, meaning the exception propagates.
- **Date parsing.** `%d` and `%m` accept one- and two-digit fields, and `%d` also accepts a space followed by a digit from 1 to 9. `%Y` takes exactly four digits. Year 0 and impossible dates are refused. Text left after the year is refused.

## Model

| member | source | states |
|---|---|---|
| Errors.InputError | task.py:6-17 | A successful body's reply is returned unchanged. A failure is answered by one of the three decorator messages, except the overflow, which propagates (`None`) exactly when the error is `DateOverflow` |
| Phones.Validate | task.py:36-38 | `validate(s)`: the phone text must be ten ASCII digits; its contract is stated by `ValidateIsTenDigits` |
| Phones.ValidateIsTenDigits | task.py:36-38 | `validate(s)` holds exactly when `s` has length 10 and every character is an ASCII digit |
| Phones.NewPhone | task.py:30-38 | `Phone(s)` succeeds exactly for ten-digit strings and stores `s` unchanged; otherwise the error is the invalid-phone ValueError |
| Text.AllDigitsAt | task.py:38 | `isdigit` over the whole string, defined recursively, agrees with "every index holds a digit" |
| Text.Lower | task.py:81 | Lower-casing keeps the length and leaves no ASCII capital. A character that is not a capital stays; a capital moves 32 code points up, to its small letter |
| Text.LowerIgnoresCase | task.py:81 | Strings that differ only in the case of ASCII letters lower-case to the same string |
| Text.LowerIdempotent | task.py:204 | Lower-casing twice is lower-casing once, and leaves no upper-case ASCII letter |
| Text.FirstIndex | task.py:59-63 | The result is -1 exactly when the element is absent; otherwise it holds the element, and no earlier index does |
| Text.Join | task.py:69 | `sep.join(ss)`, also used by `show_phone` at task.py:143: the strings in order with `sep` between neighbours. What is stated about it is `Records.JoinedPhoneAt` for the `", "` join of phones, and `Text.SplitJoin` for the single-space join |
| Text.Split | task.py:203 | Every word `str.split()` yields is non-empty and free of whitespace |
| Text.SplitJoin | task.py:203 | Splitting words joined by single spaces gives back those words |
| Text.SplitWeave | task.py:203 | Words laid out with any whitespace runs between them (non-empty) and around them (possibly empty) split back into exactly those words |
| Text.SplitLayout | task.py:203 | Every string is its `split()` words, in order, laid out with whitespace-only gaps whose inner ones are non-empty: nothing but whitespace is dropped |
| Text.Pad2 | task.py:101 | `%02d` yields two digits whose decimal value is the number |
| Text.Pad4 | task.py:101 | `%04d` / `%Y` yields four digits whose decimal value is the number |
| Dates.DaysInMonth | task.py:44 | Every month has 28 to 31 days |
| Dates.NextDay | task.py:98 | The next date is later; there is none exactly after 9999-12-31 |
| Dates.NextDayIsSuccessor | task.py:98 | No valid date lies strictly between a date and the next one |
| Dates.AddDays | task.py:98 | `d + timedelta(days=n)`: the date `n` days later, or the OverflowError past 9999-12-31. The result is never before `d`; `WithinDays` and `AddDaysOverflow` state which dates it reaches and when it overflows |
| Dates.WithinDays | task.py:98 | The dates from `d` to `d + n days` inclusive are exactly those reached by adding 0 to `n` days |
| Dates.AddDaysOverflow | task.py:98 | For up to 30 days, `d + n days` overflows exactly when `d` is after 9999-12-(31-n) |
| Dates.AddDaysOverflowSticks | task.py:98 | Once adding days has overflowed, adding more days overflows too |
| Dates.AddDaysBelowLimit | task.py:98 | Far enough from the end of 9999, adding days succeeds and stays within the matching bound |
| Dates.AddDaysInLastMonth | task.py:98 | Adding days within December 9999 advances the day of the month |
| Dates.ReplaceYear | task.py:91 | `replace(year=y)` succeeds exactly for years 1 to 9999 and not for 29 February into a common year; it keeps month and day |
| Dates.Occurrence | task.py:91-95 | On success: same month and day, not before today, and this year or next year exactly by whether this year's date has passed. It fails exactly when 29 February is moved into a common year, or when the date has passed and next year is 10000 or common for a leap day |
| Dates.FormatDMY | task.py:174 | `strftime('%d.%m.%Y')`: ten characters with dots at offsets 2 and 5; the fields are `Pad2`/`Pad4` of day, month and year, and `BirthdayRoundTrip` and `PaddedTextRoundTrip` state that it inverts parsing |
| Dates.FormatYMD | task.py:101 | `strftime("%Y.%m.%d")` of the `congratulation_date`: ten characters with dots at offsets 4 and 7; the fields are the `Pad4`/`Pad2` digits of year, month and day |
| Dates.FormatISO | task.py:69 | `str(date)`: ten characters, `YYYY-MM-DD`, with dashes at offsets 4 and 7; the fields are the `Pad4`/`Pad2` digits of year, month and day |
| Dates.DayFieldSpellings | task.py:44 | The `%d` field reads `n` exactly when it is `n` in two digits, or `n` up to 9 in one digit or after a space |
| Dates.MonthFieldSpellings | task.py:44 | The `%m` field reads `n` exactly when it is `n` in two digits, or `n` up to 9 in one digit |
| Dates.YearFieldSpellings | task.py:44 | The `%Y` field reads `n` exactly when it is `n` in four digits |
| Dates.ParseBirthday | task.py:42-46 | `strptime(text, "%d.%m.%Y").date()`: every failure is the invalid-date ValueError. Which texts parse to which dates is stated by `ParseSpelled` and `ParsedIsSpelled` |
| Dates.ParseSpelled | task.py:42-46 | Fields spelled in an accepted form and joined by dots parse to the date when it is a real calendar date, and otherwise raise the invalid-date ValueError |
| Dates.ParsedIsSpelled | task.py:42-46 | Any text that parses is three accepted spellings of the date's fields joined by dots, and the date is valid |
| Dates.BirthdayRoundTrip | task.py:174 | Parsing the `%d.%m.%Y` rendering of a date gives back the date |
| Dates.PaddedTextRoundTrip | task.py:44 | A ten-character text that parses and starts with a digit is reproduced by formatting its date with `%d.%m.%Y` |
| Records.Record.constructor | task.py:50-53 | A new record has the given name, no phones and no birthday |
| Records.Record.AddPhone | task.py:55-56 | A valid phone is appended once at the end; an invalid one raises and leaves the phones unchanged; the birthday is untouched |
| Records.Record.ChangePhone | task.py:58-63 | Only the first phone equal to the old text is replaced, at its index. No match raises KeyError and an invalid new phone raises ValueError, both with the list unchanged |
| Records.Record.AddBirthday | task.py:65-66 | Parsed text overwrites the birthday; text that does not parse raises and keeps the old birthday; the phones are untouched |
| Records.Record.Render | task.py:68-69 | `str(record)`: the name, the `", "`-joined phones and the ISO birthday or "N/A". It has no contract of its own; `Records.JoinedPhoneAt` and `Dates.FormatISO` state what its pieces are |
| Records.JoinedPhoneAt | task.py:69 | The `", "`-joined phone list has length 12n-2, and phone `i` can be read back from offset 12i |
| Records.Views | task.py:89 | The values of the records, one per record and in order |
| AddressBooks.AddressBook.constructor | task.py:73-74 | A new book has no contacts |
| AddressBooks.AddressBook.AddRecord | task.py:76-77 | The record is appended at the end, with no duplicate check, and the earlier records stay in place |
| AddressBooks.FirstNamed | task.py:79-83 | The index of the first record whose name equals the query ignoring case, or -1 when none does |
| AddressBooks.Target | task.py:79-83 | The record `find` returns: null exactly when no record's name matches ignoring case; otherwise a record of the list whose name matches, with no matching name before it |
| AddressBooks.AddressBook.Find | task.py:79-83 | Returns the first record whose name equals the query ignoring case, or null when none does. It modifies nothing |
| AddressBooks.FindIgnoresCase | task.py:81 | Two queries of equal length whose characters agree up to the case of ASCII letters find the same record |
| AddressBooks.InWeekIsInterval | task.py:98 | Being 0 to 7 days after today is the closed interval from today to today + 7 days |
| AddressBooks.Step | task.py:90-102 | One record: it raises exactly when it has a birthday whose occurrence fails or today + 7 days overflows. Otherwise it yields one entry with the occurrence formatted `%Y.%m.%d` exactly when the occurrence lies in the week |
| AddressBooks.BirthdayLine | task.py:90-102 | The loop body (replace, roll over, window check) computes `Step` |
| AddressBooks.AddressBook.UpcomingBirthdays | task.py:85-104 | The query over the book's records equals the specification `Upcoming` of their values |
| AddressBooks.UpcomingLines | task.py:87-104 | The loop that appends each record's entries, stopping at the first exception, computes `Upcoming` |
| AddressBooks.UpcomingAppend | task.py:89-102 | One record more adds its step's entries, or its error |
| AddressBooks.UpcomingPrefix | task.py:89-102 | An error at record `i` after a clean prefix is the error of the whole query; otherwise the entries grow by record `i`'s |
| AddressBooks.UpcomingFailureSticks | task.py:89-104 | Once a prefix of the records raises, the whole query raises the same error |
| AddressBooks.Upcoming | task.py:85-104 | `get_upcoming_birthdays(today)` over the record values: at most one entry per record, and the only exceptions are the date-out-of-range ValueError and the OverflowError. Which entries and which error are stated by `UpcomingSelects` and `UpcomingFailure` |
| AddressBooks.UpcomingSelects | task.py:85-104 | Every entry comes from a record with a birthday in the week, named after it and dated by its occurrence. Entries follow the order of the records, and every record whose birthday falls in the week has an entry |
| AddressBooks.PicksAscend | task.py:89 | The selected record indices are within range and strictly increasing |
| AddressBooks.PicksComplete | task.py:98-102 | Every record whose birthday falls in the week is selected |
| AddressBooks.PicksEntries | task.py:99-102 | The entries correspond one to one, in order, to the selected records |
| AddressBooks.UpcomingFailure | task.py:89-104 | A failed query names the first record that raised; every earlier record succeeded |
| AddressBooks.UpcomingSuccessSteps | task.py:89-104 | A successful query means no record raised |
| Handlers.ParseInput | task.py:201-205 | Fails exactly on a line of whitespace only; otherwise command and arguments are non-empty whitespace-free words |
| Handlers.SplitBlank | task.py:203 | A line splits into no words exactly when it is all whitespace |
| Handlers.ParseInputRoundTrip | task.py:201-205 | A command and arguments typed with single spaces are read back as the lower-cased command and the same arguments |
| Handlers.ParseInputLayout | task.py:201-205 | A command and arguments separated by any whitespace runs, with any whitespace around them, are read back as the lower-cased command and the same arguments |
| Handlers.ParseInputWords | task.py:201-205 | Whatever `parse_input` returns is the line's own words: a first word whose lower-case form is the command, then the arguments in order, separated by whitespace only |
| Handlers.AddContact | task.py:107-119 | Fewer than two arguments raise with the book unchanged. A known name gets the phone appended to its first matching record. An unknown name gets a fresh record appended before the phone is validated. A non-empty invalid phone raises; other records are untouched |
| Handlers.ChangeContact | task.py:122-132 | Exactly three arguments are required, and the contact must exist. The first matching record's phones change as `change_phone` promises; nothing else changes |
| Handlers.ShowPhone | task.py:135-145 | Exactly one argument; a missing contact raises KeyError; otherwise its phones are joined by `", "` after the name |
| Handlers.AddBirthday | task.py:156-164 | Exactly two arguments, a contact that exists, and the parsed birthday stored on the first match; phones untouched |
| Handlers.ShowBirthday | task.py:167-174 | No argument raises IndexError. A missing contact or birthday is a reply. Otherwise the birthday is shown as `%d.%m.%Y` |
| Scenarios.DayPastMonthEndRefused | task.py:44-46 | A two-digit day past the end of its month, such as "31.02.yyyy", is refused in every year |
| Scenarios.UnpaddedFieldsAccepted | task.py:44 | One-digit days and months parse without padding |
| Scenarios.SpacePaddedDayAccepted | task.py:44 | A one-digit day padded with a space parses |
| Scenarios.UpcomingSingle | task.py:89-104 | A book of one contact answers with that contact's step |
| Scenarios.NewYearRollover | task.py:91-102 | A 1 January birthday seen on 2024-12-28 is reported as "2025.01.01" |
| Scenarios.NewYearTooFar | task.py:98 | Seen on 2024-12-20, the same birthday is not reported |
| Scenarios.LeapDayBirthdayBreaksQuery | task.py:91 | On any day of a common year, a first contact born on 29 February makes the whole query raise the `replace` ValueError, whatever contacts follow |
| Scenarios.TabbedCommandLine | task.py:203-205 | `"add \t Bob"` is read as the command `add` with the one argument `Bob` |
| Scenarios.BookWithAlice | task.py:107-119 | Adding a contact with a valid phone to an empty book creates one record holding that phone |
| Scenarios.AddShortPhone | task.py:107-119 | Adding a five-digit phone to the existing contact, named in other case, is refused with the invalid-phone ValueError, and the contact keeps its single phone |

## Left out

- `main` (task.py:208 onwards): the console loop, its dispatch and its prints are not modelled.
- `save_data`/`load_data`: pickle serialisation and file I/O are not modelled.
- `show_all` and `birthdays`: only the reply formatting around `__str__` and the query, which are modelled, is missing.
- `datetime.today()`: the clock is not read; `today` is a parameter of `AddressBooks.AddressBook.UpcomingBirthdays`.
- Text is ASCII only. `isdigit`, `strptime`'s digits, `lower` and `split` are modelled on ASCII characters. Unicode digits, every non-ASCII case mapping (for example Cyrillic: `find("олена")` finds "Олена" in Python, but not in the model) and Unicode whitespace are not.
- `Handlers.ParseInput`: `strip()` is the identity on a word that `split()` produced, so it is omitted.
- `Dates.FormatYMD`, `Dates.FormatDMY`: `%Y` for years below 1000 is modelled as four zero-padded digits; Python's output there depends on the platform.
- `Name` does no validation, so a name is a plain string.
- `Handlers.AddContact`, `Handlers.ChangeContact`, `Handlers.AddBirthday`: the contracts speak of record references in `contacts`. When the same record object appears twice in the list, the model follows the references exactly as Python does, but the contracts state only what happens to the first match.
- `Records.Record.Render`: `__str__` is given as a function with no contract of its own. The property stated about it is `Records.JoinedPhoneAt`; `str(date)` is the ISO form `Dates.FormatISO`.
- The `copy` import is unused.
