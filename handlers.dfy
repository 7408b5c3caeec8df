/** The command handlers' logic and the splitting of a command line
    (task.py: add_contact, change_contact, show_phone, add_birthday,
    show_birthday, parse_input). Each handler returns its reply or the error
    it raises; `Errors.InputError` is what the decorator makes of that. */
module Handlers {
  import opened Text
  import opened Errors
  import opened Dates
  import opened Phones
  import opened Records
  import opened AddressBooks

  // ------------------------------------------------------- parse_input

  /** `parse_input`: the words of the line, the first one lower-cased as the
      command. A blank line has no word to unpack, a ValueError. */
  function ParseInput(line: string): (r: Result<(string, seq<string>)>)
    ensures r.Failure? <==> forall i :: 0 <= i < |line| ==> IsSpace(line[i])
    ensures r.Failure? ==> r.error == EmptyInput
    ensures r.Success? ==> IsWord(r.value.0) && forall j :: 0 <= j < |r.value.1| ==> IsWord(r.value.1[j])
  {
    var words := Split(line);
    SplitBlank(line);
    if words == [] then Failure(EmptyInput)
    else
      LowerWord(words[0]);
      Success((Lower(words[0]), words[1..]))
  }

  /** A line has no words exactly when it is all whitespace. */
  lemma {:induction false} SplitBlank(s: string)
    ensures Split(s) == [] <==> forall i :: 0 <= i < |s| ==> IsSpace(s[i])
    decreases |s|
  {
    if s != [] && IsSpace(s[0]) {
      SplitBlank(s[1..]);
      assert forall i :: 1 <= i < |s| ==> s[i] == s[1..][i - 1];
    }
  }

  lemma LowerWord(w: string)
    requires IsWord(w)
    ensures IsWord(Lower(w))
  {
  }

  /** A command and its arguments typed with single spaces between them are
      read back as that command, lower-cased, and those arguments. */
  lemma ParseInputRoundTrip(command: string, args: seq<string>)
    requires IsWord(command) && forall j :: 0 <= j < |args| ==> IsWord(args[j])
    ensures ParseInput(Join([command] + args, " ")) == Success((Lower(command), args))
  {
    var words := [command] + args;
    assert forall j :: 0 <= j < |words| ==> IsWord(words[j]);
    SplitJoin(words);
    assert words[1..] == args;
  }

  /** A command line laid out with any runs of whitespace between its words,
      and any before or after them, is read as its lower-cased first word
      and the remaining words. */
  lemma ParseInputLayout(gaps: seq<string>, command: string, args: seq<string>)
    requires |gaps| == |args| + 2 && Separates(gaps)
    requires IsWord(command) && forall j :: 0 <= j < |args| ==> IsWord(args[j])
    ensures ParseInput(Weave(gaps, [command] + args)) == Success((Lower(command), args))
  {
    var words := [command] + args;
    assert forall j :: 0 <= j < |words| ==> IsWord(words[j]);
    SplitWeave(gaps, words);
    assert words[1..] == args;
  }

  /** Whatever `parse_input` returns comes from the line itself: the line is
      a first word, whose lower-case form is the command, and the arguments,
      in order, separated by whitespace only. */
  lemma ParseInputWords(line: string) returns (gaps: seq<string>, first: string)
    requires ParseInput(line).Success?
    ensures var (command, args) := ParseInput(line).value;
            && |gaps| == |args| + 2 && Separates(gaps)
            && IsWord(first) && Lower(first) == command
            && line == Weave(gaps, [first] + args)
  {
    var words := Split(line);
    gaps := SplitLayout(line);
    first := words[0];
    assert words == [first] + words[1..];
  }

  // ------------------------------------------------------ add_contact

  /** `add_contact`: fewer than two arguments cannot be unpacked. The named
      contact is looked up, and created and appended when missing, before a
      non-empty phone is added to it; so an invalid phone still leaves a
      new contact behind, without phones. */
  method AddContact(args: seq<string>, book: AddressBook) returns (r: Result<string>)
    modifies book, book.contacts
    ensures |args| < 2 ==> r == Failure(BadArguments) && book.contacts == old(book.contacts)
    ensures forall x :: x in old(book.contacts) && (|args| < 2 || x != Target(old(book.contacts), args[0])) ==>
              x.phones == old(x.phones)
    ensures forall x :: x in old(book.contacts) ==> x.birthday == old(x.birthday)
    ensures |args| >= 2 ==>
              var name, phone := args[0], args[1];
              var k := FirstNamed(old(book.contacts), name);
              var added := if phone != "" && Validate(phone) then [phone] else [];
              && r == (if phone != "" && !Validate(phone) then Failure(InvalidPhone)
                       else Success(if k < 0 then "Contact added." else "Contact updated."))
              && (k >= 0 ==>
                    && book.contacts == old(book.contacts)
                    && book.contacts[k].phones == old(book.contacts[k].phones) + added)
              && (k < 0 ==>
                    && |book.contacts| == |old(book.contacts)| + 1
                    && book.contacts[..|old(book.contacts)|] == old(book.contacts)
                    && var created := book.contacts[|old(book.contacts)|];
                       fresh(created) && created.name == name
                       && created.phones == added && created.birthday == None)
  {
    if |args| < 2 {
      return Failure(BadArguments);
    }
    var name, phone := args[0], args[1];
    var record := book.Find(name);
    var message := "Contact updated.";
    if record == null {
      record := new Record(name);
      book.AddRecord(record);
      message := "Contact added.";
    }
    if phone != "" {
      var added := record.AddPhone(phone);
      if added.Failure? {
        return Failure(added.error);
      }
    }
    return Success(message);
  }

  // --------------------------------------------------- change_contact

  /** `change_contact`: exactly three arguments, a contact that exists, then
      `change_phone` on it. */
  method ChangeContact(args: seq<string>, book: AddressBook) returns (r: Result<string>)
    modifies book.contacts
    ensures forall x :: x in book.contacts ==> x.birthday == old(x.birthday)
    ensures forall x :: x in book.contacts && (|args| != 3 || x != Target(book.contacts, args[0])) ==>
              x.phones == old(x.phones)
    ensures |args| != 3 ==> r == Failure(BadArguments)
    ensures |args| == 3 && FirstNamed(book.contacts, args[0]) < 0 ==> r == Failure(ContactNotFound)
    ensures |args| == 3 && FirstNamed(book.contacts, args[0]) >= 0 ==>
              var target := book.contacts[FirstNamed(book.contacts, args[0])];
              var j := FirstIndex(old(target.phones), args[1]);
              if j < 0 then r == Failure(PhoneNotFound) && target.phones == old(target.phones)
              else if !Validate(args[2]) then r == Failure(InvalidPhone) && target.phones == old(target.phones)
              else r == Success("Phone number updated.") && target.phones == old(target.phones)[j := args[2]]
  {
    if |args| != 3 {
      return Failure(BadArguments);
    }
    var name, oldPhone, newPhone := args[0], args[1], args[2];
    var record := book.Find(name);
    if record == null {
      return Failure(ContactNotFound);
    }
    var changed := record.ChangePhone(oldPhone, newPhone);
    if changed.Failure? {
      return Failure(changed.error);
    }
    return Success("Phone number updated.");
  }

  // -------------------------------------------------------- show_phone

  /** `show_phone`: exactly one argument, a contact that exists, and its
      phones joined by `", "`. */
  method ShowPhone(args: seq<string>, book: AddressBook) returns (r: Result<string>)
    ensures |args| != 1 ==> r == Failure(BadArguments)
    ensures |args| == 1 ==>
              var k := FirstNamed(book.contacts, args[0]);
              r == if k < 0 then Failure(ContactNotFound)
                   else Success(args[0] + "'s phone(s): " + Join(book.contacts[k].phones, ", "))
  {
    if |args| != 1 {
      return Failure(BadArguments);
    }
    var name := args[0];
    var record := book.Find(name);
    if record == null {
      return Failure(ContactNotFound);
    }
    return Success(name + "'s phone(s): " + Join(record.phones, ", "));
  }

  // ------------------------------------------------------ add_birthday

  /** `add_birthday`: exactly two arguments, a contact that exists, then
      `Record.add_birthday` on it. */
  method AddBirthday(args: seq<string>, book: AddressBook) returns (r: Result<string>)
    modifies book.contacts
    ensures forall x :: x in book.contacts ==> x.phones == old(x.phones)
    ensures forall x :: x in book.contacts && (|args| != 2 || x != Target(book.contacts, args[0])) ==>
              x.birthday == old(x.birthday)
    ensures |args| != 2 ==> r == Failure(BadArguments)
    ensures |args| == 2 && FirstNamed(book.contacts, args[0]) < 0 ==> r == Failure(ContactNotFound)
    ensures |args| == 2 && FirstNamed(book.contacts, args[0]) >= 0 ==>
              var target := book.contacts[FirstNamed(book.contacts, args[0])];
              match ParseBirthday(args[1])
              case Success(d) => r == Success("Birthday for " + args[0] + " added.") && target.birthday == Some(d)
              case Failure(e) => r == Failure(e) && target.birthday == old(target.birthday)
  {
    if |args| != 2 {
      return Failure(BadArguments);
    }
    var name, birthday := args[0], args[1];
    var record := book.Find(name);
    if record == null {
      return Failure(ContactNotFound);
    }
    var added := record.AddBirthday(birthday);
    if added.Failure? {
      return Failure(added.error);
    }
    return Success("Birthday for " + name + " added.");
  }

  // ----------------------------------------------------- show_birthday

  /** `show_birthday`: the first argument names the contact (an IndexError
      when there is none); a missing contact or birthday is a reply, not an
      error. */
  method ShowBirthday(args: seq<string>, book: AddressBook) returns (r: Result<string>)
    ensures args == [] ==> r == Failure(MissingArgument)
    ensures args != [] ==>
              var k := FirstNamed(book.contacts, args[0]);
              r == if k < 0 || book.contacts[k].birthday.None? then Success("No birthday found for " + args[0] + ".")
                   else Success(args[0] + "'s birthday is on " + FormatDMY(book.contacts[k].birthday.value) + ".")
  {
    if args == [] {
      return Failure(MissingArgument);
    }
    var name := args[0];
    var record := book.Find(name);
    if record == null || record.birthday.None? {
      return Success("No birthday found for " + name + ".");
    }
    return Success(name + "'s birthday is on " + FormatDMY(record.birthday.value) + ".");
  }
}
