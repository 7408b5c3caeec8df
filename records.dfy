/** A contact: a name, the phones added to it in order, and an optional
    birthday (task.py: class Record). */
module Records {
  import opened Text
  import opened Errors
  import opened Dates
  import opened Phones

  /** The value a Record holds at one moment. */
  datatype Contact = Contact(name: string, phones: seq<Phone>, birthday: Option<CalendarDate>)

  class Record {
    const name: string
    var phones: seq<Phone>
    var birthday: Option<CalendarDate>

    /** `Record(name)`: the name kept as given, no phones, no birthday. */
    constructor (name: string)
      ensures this.name == name && phones == [] && birthday == None
    {
      this.name := name;
      phones := [];
      birthday := None;
    }

    function View(): (c: Contact)
      reads this
    {
      Contact(name, phones, birthday)
    }

    /** `add_phone`: the phone is built first, so an invalid one raises
        before anything is appended. */
    method AddPhone(text: string) returns (r: Result<()>)
      modifies this
      ensures r == if Validate(text) then Success(()) else Failure(InvalidPhone)
      ensures phones == if Validate(text) then old(phones) + [text] else old(phones)
      ensures birthday == old(birthday)
    {
      var p := NewPhone(text);
      if p.Failure? {
        return Failure(p.error);
      }
      phones := phones + [p.value];
      return Success(());
    }

    /** `change_phone`: the first phone equal to `oldText` is replaced by a
        phone built from `newText`; no match is a KeyError, and an invalid
        new phone raises before the assignment. */
    method ChangePhone(oldText: string, newText: string) returns (r: Result<()>)
      modifies this
      ensures birthday == old(birthday)
      ensures var k := FirstIndex(old(phones), oldText);
              if k < 0 then r == Failure(PhoneNotFound) && phones == old(phones)
              else if !Validate(newText) then r == Failure(InvalidPhone) && phones == old(phones)
              else r == Success(()) && phones == old(phones)[k := newText]
    {
      for idx := 0 to |phones|
        invariant phones == old(phones)
        invariant oldText !in phones[..idx]
      {
        if phones[idx] == oldText {
          assert phones[..idx + 1] == phones[..idx] + [oldText];
          var p := NewPhone(newText);
          if p.Failure? {
            return Failure(p.error);
          }
          phones := phones[idx := p.value];
          return Success(());
        }
        assert phones[..idx + 1] == phones[..idx] + [phones[idx]];
      }
      assert phones[..|phones|] == phones;
      return Failure(PhoneNotFound);
    }

    /** `add_birthday`: the parsed date overwrites the birthday; text that
        does not parse raises and leaves it as it was. */
    method AddBirthday(text: string) returns (r: Result<()>)
      modifies this
      ensures phones == old(phones)
      ensures match ParseBirthday(text)
              case Success(d) => r == Success(()) && birthday == Some(d)
              case Failure(e) => r == Failure(e) && birthday == old(birthday)
    {
      var d := ParseBirthday(text);
      if d.Failure? {
        return Failure(d.error);
      }
      birthday := Some(d.value);
      return Success(());
    }

    /** `str(record)`. */
    function Render(): string
      reads this
    {
      "Record(name=" + name + ", phones=" + Join(phones, ", ") + ", birthday="
      + (match birthday case Some(d) => FormatISO(d) case None => "N/A") + ")"
    }
  }

  /** The `", "`-joined phone list of `str(record)` and `show_phone` puts
      phone `i` at offset `12 * i`, so every phone can be read back from it. */
  lemma {:induction false} JoinedPhoneAt(ps: seq<Phone>, i: nat)
    requires i < |ps|
    ensures |Join(ps, ", ")| == 12 * |ps| - 2
    ensures Join(ps, ", ")[12 * i .. 12 * i + 10] == ps[i]
    decreases |ps|
  {
    if |ps| > 1 {
      var tail := Join(ps[1..], ", ");
      assert Join(ps, ", ") == ps[0] + ", " + tail;
      JoinedPhoneAt(ps[1..], if i == 0 then 0 else i - 1);
      if i > 0 {
        var s := ps[0] + ", " + tail;
        assert s[12 * i .. 12 * i + 10] == tail[12 * (i - 1) .. 12 * (i - 1) + 10];
      }
    }
  }

  /** The values of a sequence of records. */
  function Views(rs: seq<Record>): (cs: seq<Contact>)
    reads rs
    ensures |cs| == |rs|
    ensures forall i :: 0 <= i < |rs| ==> cs[i] == rs[i].View()
  {
    if rs == [] then [] else Views(rs[..|rs| - 1]) + [rs[|rs| - 1].View()]
  }
}
