/**
 * The validation rule table of `validateField`: a message for a (field id,
 * value) pair, "" meaning no error. Rules are chosen by the literal id string,
 * not by the field's type; each rule tests the value the way JavaScript does,
 * and two of them throw a TypeError on values without the property they read.
 */
module Validation {
  import opened Wrappers
  import opened FormDataStore
  import OptionsText

  const EmailMessage := "Invalid email"
  const PhoneMessage := "Invalid phone number"
  const SizeMessage := "File size should be less than 1MB"
  const TypeMessage := "Invalid file type. Only JPEG, PNG, and PDF are allowed."
  const DateMessage := "Date cannot be in the future"
  const CheckboxMessage := "At least one option must be selected"

  /** The largest accepted file, in bytes. */
  const MaxFileSize := 1048576

  const AllowedTypes := ["image/jpeg", "image/png", "application/pdf"]

  /** The ids the table has a rule for. */
  const RuleIds := {Name("email"), Name("phone"), Name("file"), Name("date"), Name("checkbox")}

  /**
   * The date rule's readings of the clock: `new Date(value)` in milliseconds
   * (None for an Invalid Date, which compares false with everything) and `new Date()`.
   */
  datatype Clock = Clock(valueTime: Option<int>, now: int)

  /** A message, or the TypeError JavaScript throws before any message is stored. */
  datatype Outcome = Message(text: string) | TypeError

  /** `String(value)`, as a regular expression test sees the value. */
  function JsString(v: Value): string {
    match v
    case Text(s) => s
    case Choices(items) => OptionsText.Join(items, ",")
    case Upload(_, _) => "[object File]"
    case NoFile => "undefined"
  }

  /** The value's truthiness: "" and undefined are falsy; lists and files are objects. */
  predicate Present(v: Value) {
    match v
    case Text(s) => s != ""
    case Choices(_) => true
    case Upload(_, _) => true
    case NoFile => false
  }

  /** `/^\d{10}$/`: exactly ten ASCII digits. */
  predicate TenDigits(s: string) {
    |s| == 10 && forall k :: 0 <= k < |s| ==> '0' <= s[k] <= '9'
  }

  /** `value.size > 1048576`; a string or a list has no `size`, and undefined compares false. */
  predicate TooLarge(v: Value) {
    v.Upload? && v.size > MaxFileSize
  }

  /** `[...].includes(value.type)`; a string or a list has no `type`, and undefined is not listed. */
  predicate AllowedType(v: Value) {
    v.Upload? && v.mime in AllowedTypes
  }

  /**
   * The rule table: each rule id selects its one test; every other id passes.
   * In the table form of the two file tests, the type test is decided first
   * because its message is the one assigned last in `validateField`.
   */
  function Validate(id: Id, v: Value, clock: Clock): (r: Outcome)
    ensures r.Message? && r.text != "" ==> id in RuleIds
    ensures r.Message? ==> r.text in {"", EmailMessage, PhoneMessage, SizeMessage, TypeMessage, DateMessage, CheckboxMessage}
  {
    if id == Name("email") then
      match v
      case Text(s) => Message(if '@' in s then "" else EmailMessage)
      case Choices(items) => Message(if "@" in items then "" else EmailMessage)
      case _ => TypeError
    else if id == Name("phone") then
      Message(if TenDigits(JsString(v)) then "" else PhoneMessage)
    else if id == Name("file") then
      Message(
        if !Present(v) then ""
        else if !AllowedType(v) then TypeMessage
        else if TooLarge(v) then SizeMessage
        else "")
    else if id == Name("date") then
      Message(if clock.valueTime.Some? && clock.valueTime.value > clock.now then DateMessage else "")
    else if id == Name("checkbox") then
      match v
      case Text(s) => Message(if |s| == 0 then CheckboxMessage else "")
      case Choices(items) => Message(if |items| == 0 then CheckboxMessage else "")
      case Upload(_, _) => Message(CheckboxMessage)
      case NoFile => TypeError
    else
      Message("")
  }

  /** An id without a rule always validates. */
  lemma UnlistedIdPasses(id: Id, v: Value, clock: Clock)
    requires id !in RuleIds
    ensures Validate(id, v, clock) == Message("")
  {
  }

  /** Generated (time-stamp) ids never equal a rule's string, so they always validate. */
  lemma GeneratedIdPasses(ms: nat, v: Value, clock: Clock)
    ensures Validate(Stamp(ms), v, clock) == Message("")
  {
  }

  /** Validation throws exactly for an email check of a file or of no file, and for a checkbox check of no file. */
  lemma ThrowsExactly(id: Id, v: Value, clock: Clock)
    ensures Validate(id, v, clock).TypeError? <==>
      (id == Name("email") && (v.Upload? || v.NoFile?)) || (id == Name("checkbox") && v.NoFile?)
  {
  }

  /** "email": text is rejected exactly when it has no '@'. */
  lemma EmailRule(s: string, clock: Clock)
    ensures Validate(Name("email"), Text(s), clock) == Message(if '@' in s then "" else EmailMessage)
  {
  }

  /** "phone": text is rejected exactly when it is not ten digits. */
  lemma PhoneRule(s: string, clock: Clock)
    ensures Validate(Name("phone"), Text(s), clock) == Message(if TenDigits(s) then "" else PhoneMessage)
  {
  }

  /** "file": a disallowed type is reported even when the file is also too large. */
  lemma FileTypeWins(size: nat, mime: string, clock: Clock)
    requires size > MaxFileSize && mime !in AllowedTypes
    ensures Validate(Name("file"), Upload(size, mime), clock) == Message(TypeMessage)
  {
  }

  /** "file": an allowed file is rejected exactly when it is larger than 1 MiB; no file passes. */
  lemma FileSizeRule(size: nat, mime: string, clock: Clock)
    requires mime in AllowedTypes
    ensures Validate(Name("file"), Upload(size, mime), clock) == Message(if size > MaxFileSize then SizeMessage else "")
    ensures Validate(Name("file"), NoFile, clock) == Message("")
  {
  }

  /** "date": rejected exactly when the value's time is valid and later than now. */
  lemma DateRule(v: Value, clock: Clock)
    ensures Validate(Name("date"), v, clock) ==
      Message(if clock.valueTime.Some? && clock.valueTime.value > clock.now then DateMessage else "")
  {
  }

  /** "checkbox": text or a list is rejected exactly when it is empty. */
  lemma CheckboxRule(v: Value, clock: Clock)
    requires v.Text? || v.Choices?
    ensures Validate(Name("checkbox"), v, clock) ==
      Message(if (v.Text? && |v.s| == 0) || (v.Choices? && |v.items| == 0) then CheckboxMessage else "")
  {
  }

  /** The rule table on literal inputs: ten digits, a short number, addresses with and without '@', an empty and a one-item selection. */
  lemma Examples(clock: Clock)
    ensures Validate(Name("phone"), Text("5551234567"), clock) == Message("")
    ensures Validate(Name("phone"), Text("555-123"), clock) == Message(PhoneMessage)
    ensures Validate(Name("email"), Text("a@b.com"), clock) == Message("")
    ensures Validate(Name("email"), Text("ab.com"), clock) == Message(EmailMessage)
    ensures Validate(Name("checkbox"), Choices([]), clock) == Message(CheckboxMessage)
    ensures Validate(Name("checkbox"), Choices(["Option 1"]), clock) == Message("")
  {
  }
}
