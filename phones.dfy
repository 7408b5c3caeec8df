/** The validated `Phone` field (task.py: class Phone). */
module Phones {
  import opened Text
  import opened Errors

  /** `Phone.validate`: a string that `isdigit()` and has length 10. */
  predicate Validate(value: string)
  {
    IsDigits(value) && |value| == 10
  }

  /** `Phone.validate` holds exactly of the ten-character all-digit strings. */
  lemma ValidateIsTenDigits(value: string)
    ensures Validate(value) <==> |value| == 10 && forall i :: 0 <= i < |value| ==> IsDigit(value[i])
  {
    AllDigitsAt(value);
  }

  /** A constructed `Phone`: its value passed `Phone.validate`. */
  type Phone = s: string | Validate(s) witness "0000000000"

  /** `Phone(value)`: the value kept unchanged, or the ValueError of
      `Phone.__init__`. */
  function NewPhone(value: string): (r: Result<Phone>)
    ensures r.Success? <==> |value| == 10 && forall i :: 0 <= i < |value| ==> IsDigit(value[i])
    ensures r.Success? ==> r.value == value
    ensures r.Failure? ==> r.error == InvalidPhone
  {
    ValidateIsTenDigits(value);
    if Validate(value) then Success(value) else Failure(InvalidPhone)
  }
}
